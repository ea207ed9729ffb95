/** One entity of the entity lump: the text between an outermost pair of
    braces, read line by line into a dictionary of key/value properties.
    Lines are trimmed, `//` comments outside quotes are cut, brush
    sub-blocks are skipped and the first value given for a key wins. */
module EntityKeyValues {

  /** The separator of connection members (ESC). */
  const CONNECTION_MEMBER_SEPARATOR: char := '\U{1B}'

  // ---------------------------------------------------------------------
  // Line splitting and trimming

  /** string.Split(sep): the pieces between separators, empty ones kept. */
  function Split(s: string, sep: char): (r: seq<string>)
    ensures |r| >= 1
    ensures forall i :: 0 <= i < |r| ==> sep !in r[i]
  {
    if s == [] then [[]]
    else
      var rest := Split(s[1..], sep);
      if s[0] == sep then [[]] + rest
      else [[s[0]] + rest[0]] + rest[1..]
  }

  /** string.Join(sep, pieces). */
  function Join(pieces: seq<string>, sep: char): string
    requires |pieces| >= 1
  {
    if |pieces| == 1 then pieces[0]
    else pieces[0] + [sep] + Join(pieces[1..], sep)
  }

  /** Splitting loses nothing: the pieces joined with the separator give the
      text back. */
  lemma {:induction false} SplitJoin(s: string, sep: char)
    ensures Join(Split(s, sep), sep) == s
  {
    if s != [] {
      var rest := Split(s[1..], sep);
      SplitJoin(s[1..], sep);
      if s[0] == sep {
        assert Split(s, sep) == [[]] + rest;
        assert ([[]] + rest)[1..] == rest;
        assert Join([[]] + rest, sep) == [sep] + Join(rest, sep);
      } else {
        var r := [[s[0]] + rest[0]] + rest[1..];
        assert Split(s, sep) == r;
        if |rest| == 1 {
          assert Join(r, sep) == [s[0]] + rest[0];
        } else {
          assert r[1..] == rest[1..];
          assert Join(r, sep) == [s[0]] + rest[0] + [sep] + Join(rest[1..], sep);
        }
        assert s == [s[0]] + s[1..];
      }
    }
  }

  /** The characters `Trim(' ', '\t', '\r')` removes. */
  predicate IsTrimmed(c: char)
  {
    c == ' ' || c == '\t' || c == '\r'
  }

  /** The first position at or after i holding a character Trim keeps
      (|s| when there is none). */
  function FirstKept(s: string, i: nat): (k: nat)
    requires i <= |s|
    ensures i <= k <= |s|
    ensures k == |s| || !IsTrimmed(s[k])
    decreases |s| - i
  {
    if i < |s| && IsTrimmed(s[i]) then FirstKept(s, i + 1) else i
  }

  /** The end of the kept text: scanning back from j, not below lo, past
      every trimmed character. */
  function EndKept(s: string, lo: nat, j: nat): (k: nat)
    requires lo <= j <= |s|
    ensures lo <= k <= j
    ensures k == lo || !IsTrimmed(s[k - 1])
  {
    if lo < j && IsTrimmed(s[j - 1]) then EndKept(s, lo, j - 1) else j
  }

  /** string.Trim(' ', '\t', '\r'): the text between the leading and the
      trailing run of trimmed characters. */
  function Trim(s: string): (r: string)
    ensures |r| <= |s|
    ensures r == [] || (!IsTrimmed(r[0]) && !IsTrimmed(r[|r| - 1]))
  {
    var a := FirstKept(s, 0);
    s[a..EndKept(s, a, |s|)]
  }

  lemma {:induction false} FirstKeptSkipsTrimmed(s: string, i: nat)
    requires i <= |s|
    ensures forall m :: i <= m < FirstKept(s, i) ==> IsTrimmed(s[m])
    decreases |s| - i
  {
    if i < |s| && IsTrimmed(s[i]) {
      FirstKeptSkipsTrimmed(s, i + 1);
    }
  }

  lemma {:induction false} EndKeptSkipsTrimmed(s: string, lo: nat, j: nat)
    requires lo <= j <= |s|
    ensures forall m :: EndKept(s, lo, j) <= m < j ==> IsTrimmed(s[m])
  {
    if lo < j && IsTrimmed(s[j - 1]) {
      EndKeptSkipsTrimmed(s, lo, j - 1);
    }
  }

  /** Trim removes only trimmed characters: s is a run of them, the result,
      and another run of them. */
  lemma TrimDropsOnlyTrimmed(s: string)
    ensures exists a, b ::
              && 0 <= a <= b <= |s| && Trim(s) == s[a..b]
              && (forall m :: 0 <= m < a ==> IsTrimmed(s[m]))
              && (forall m :: b <= m < |s| ==> IsTrimmed(s[m]))
  {
    var a := FirstKept(s, 0);
    var b := EndKept(s, a, |s|);
    FirstKeptSkipsTrimmed(s, 0);
    EndKeptSkipsTrimmed(s, a, |s|);
    assert Trim(s) == s[a..b];
  }

  /** Conversely the result is determined by that shape: any split of s into
      trimmed characters, a text with kept characters at both ends, and
      trimmed characters, has Trim(s) as its middle. */
  lemma TrimIsTheUniqueInfix(s: string, a: nat, b: nat)
    requires a <= b <= |s|
    requires forall m :: 0 <= m < a ==> IsTrimmed(s[m])
    requires forall m :: b <= m < |s| ==> IsTrimmed(s[m])
    requires a == b || (!IsTrimmed(s[a]) && !IsTrimmed(s[b - 1]))
    ensures Trim(s) == s[a..b]
  {
    var a' := FirstKept(s, 0);
    FirstKeptSkipsTrimmed(s, 0);
    var b' := EndKept(s, a', |s|);
    EndKeptSkipsTrimmed(s, a', |s|);
    if a < b {
      assert a' == a;
      assert b' == b;
    } else {
      assert a' >= a;
      assert b' == a';
    }
  }

  // ---------------------------------------------------------------------
  // Comment culling

  /** Whether the character at i toggles the quote state: a double quote
      not preceded by a backslash. */
  predicate TogglesQuote(s: string, i: nat)
    requires i < |s|
  {
    s[i] == '"' && (i == 0 || s[i - 1] != '\\')
  }

  /** The line with everything from the first `//` outside quotes removed,
      scanning from position i with the given quote state. */
  function Cull(s: string, i: nat, inQuotes: bool): (r: string)
    ensures r <= s
    ensures |r| < |s| ==> |r| + 1 < |s| && s[|r|] == '/' && s[|r| + 1] == '/'
    decreases |s| - i
  {
    if i >= |s| then s
    else
      var q := if TogglesQuote(s, i) then !inQuotes else inQuotes;
      if !q && s[i] == '/' && i != 0 && s[i - 1] == '/' then s[..i - 1]
      else Cull(s, i + 1, q)
  }

  /** Culling keeps a prefix of the line, and what it removes starts with
      the `//` that begins the comment. */
  lemma {:induction false} CullIsPrefix(s: string, i: nat, inQuotes: bool)
    ensures |Cull(s, i, inQuotes)| <= |s|
    ensures Cull(s, i, inQuotes) == s[..|Cull(s, i, inQuotes)|]
    ensures |Cull(s, i, inQuotes)| < |s| ==>
      |Cull(s, i, inQuotes)| + 1 < |s| && s[|Cull(s, i, inQuotes)|] == '/' && s[|Cull(s, i, inQuotes)| + 1] == '/'
    decreases |s| - i
  {
    if i < |s| {
      var q := if TogglesQuote(s, i) then !inQuotes else inQuotes;
      if !(!q && s[i] == '/' && i != 0 && s[i - 1] == '/') {
        CullIsPrefix(s, i + 1, q);
      }
    }
  }

  /** A line without a slash is never cut. */
  lemma {:induction false} CullWithoutSlash(s: string, i: nat, inQuotes: bool)
    requires '/' !in s
    ensures Cull(s, i, inQuotes) == s
    decreases |s| - i
  {
    if i < |s| {
      var q := if TogglesQuote(s, i) then !inQuotes else inQuotes;
      assert s[i] != '/';
      CullWithoutSlash(s, i + 1, q);
    }
  }

  /** The comment-culling loop of the entity constructor.  The string is
      shortened inside the loop, which ends the loop at the next test. */
  method CullComment(line: string) returns (current: string)
    ensures current == Cull(line, 0, false)
  {
    current := line;
    var inQuotes := false;
    ghost var cut := false;
    var i := 0;
    while i < |current|
      invariant !cut ==> current == line && Cull(line, 0, false) == Cull(line, i, inQuotes)
      invariant cut ==> current == Cull(line, 0, false) && i > |current|
      decreases |line| + 1 - i
    {
      if current[i] == '"' && (i == 0 || current[i - 1] != '\\') {
        inQuotes := !inQuotes;
      }
      if !inQuotes && current[i] == '/' && i != 0 && current[i - 1] == '/' {
        current := current[..i - 1];
        cut := true;
      }
      i := i + 1;
    }
  }

  // ---------------------------------------------------------------------
  // Key/value extraction

  /** The state of the key/value extraction loop. */
  datatype KeyValueScan = KeyValueScan(key: string, val: string, inQuotes: bool, isVal: bool, numCommas: nat)

  const StartScan := KeyValueScan("", "", false, false, 0)

  predicate IsCommaLike(c: char)
  {
    c == ',' || c == CONNECTION_MEMBER_SEPARATOR
  }

  /** The extraction loop from position i: the text of the first quoted
      string goes to the key, that of the second to the value, and the
      closing quote of the value ends the scan.  Text outside quotes is
      ignored; an escaped quote is kept verbatim. */
  function ScanKeyValue(st: string, i: nat, s: KeyValueScan): (r: KeyValueScan)
    ensures s.key <= r.key && s.val <= r.val
    ensures s.isVal ==> r.key == s.key
    ensures s.numCommas <= r.numCommas <= s.numCommas + (|r.val| - |s.val|)
    decreases |st| - i
  {
    if i >= |st| then s
    else if TogglesQuote(st, i) then
      if s.inQuotes && s.isVal then s
      else ScanKeyValue(st, i + 1, s.(isVal := s.isVal || s.inQuotes, inQuotes := !s.inQuotes))
    else if s.inQuotes then
      if !s.isVal then ScanKeyValue(st, i + 1, s.(key := s.key + [st[i]]))
      else ScanKeyValue(st, i + 1, s.(val := s.val + [st[i]],
                                      numCommas := s.numCommas + if IsCommaLike(st[i]) then 1 else 0))
    else ScanKeyValue(st, i + 1, s)
  }

  /** How many commas (or separators) a value holds. */
  function CountCommas(v: string): nat
  {
    if v == [] then 0 else CountCommas(v[..|v| - 1]) + if IsCommaLike(v[|v| - 1]) then 1 else 0
  }

  /** The dictionary after `Add(st)`: the scanned pair is inserted unless
      the key is empty, the value looks like a connection (4 or 6 commas),
      or the key is already present. */
  function AddProperty(props: map<string, string>, st: string): (r: map<string, string>)
    ensures forall k :: k in props ==> k in r && r[k] == props[k]
    ensures forall k :: k in r && k !in props ==> k == ScanKeyValue(st, 0, StartScan).key && k != ""
  {
    var s := ScanKeyValue(st, 0, StartScan);
    if s.key == [] || s.numCommas == 4 || s.numCommas == 6 || s.key in props then props
    else props[s.key := s.val]
  }

  /** Add never overwrites (the first value of a key wins) and can only add
      the key scanned from the line. */
  lemma AddPropertyKeeps(props: map<string, string>, st: string)
    ensures forall k :: k in props ==> k in AddProperty(props, st) && AddProperty(props, st)[k] == props[k]
    ensures forall k :: k in AddProperty(props, st) && k !in props ==> k == ScanKeyValue(st, 0, StartScan).key && k != ""
  {
  }

  /** Scanning a run of quote-free characters inside the key's quotes
      appends them to the key. */
  lemma {:induction false} ScanQuotedKey(st: string, i: nat, j: nat, s: KeyValueScan)
    requires i <= j <= |st|
    requires forall m :: i <= m < j ==> st[m] != '"'
    requires s.inQuotes && !s.isVal
    ensures ScanKeyValue(st, i, s) == ScanKeyValue(st, j, s.(key := s.key + st[i..j]))
    decreases j - i
  {
    if i < j {
      assert !TogglesQuote(st, i);
      var s' := s.(key := s.key + [st[i]]);
      ScanQuotedKey(st, i + 1, j, s');
      assert s'.key + st[i + 1..j] == s.key + st[i..j];
    } else {
      assert s.key + st[i..j] == s.key;
    }
  }

  /** The same inside the value's quotes: the run goes to the value and its
      commas are counted. */
  lemma {:induction false} ScanQuotedValue(st: string, i: nat, j: nat, s: KeyValueScan)
    requires i <= j <= |st|
    requires forall m :: i <= m < j ==> st[m] != '"'
    requires s.inQuotes && s.isVal
    ensures ScanKeyValue(st, i, s) ==
      ScanKeyValue(st, j, s.(val := s.val + st[i..j], numCommas := s.numCommas + CountCommas(st[i..j])))
    decreases j - i
  {
    if i < j {
      assert !TogglesQuote(st, i);
      var s' := s.(val := s.val + [st[i]], numCommas := s.numCommas + if IsCommaLike(st[i]) then 1 else 0);
      ScanQuotedValue(st, i + 1, j, s');
      assert s'.val + st[i + 1..j] == s.val + st[i..j];
      CountCommasCons(st[i], st[i + 1..j]);
      assert [st[i]] + st[i + 1..j] == st[i..j];
    } else {
      assert st[i..j] == [];
      assert s.val + st[i..j] == s.val;
    }
  }

  lemma {:induction false} CountCommasCons(c: char, v: string)
    ensures CountCommas([c] + v) == (if IsCommaLike(c) then 1 else 0) + CountCommas(v)
    decreases |v|
  {
    if v != [] {
      var w := [c] + v;
      assert w[..|w| - 1] == [c] + v[..|v| - 1];
      CountCommasCons(c, v[..|v| - 1]);
    } else {
      assert [c] + v == [c];
      assert [c][..0] == [];
    }
  }

  /** A well-formed quoted string for a key or value: no double quote in
      it and no backslash that would escape its closing quote. */
  predicate IsQuotable(s: string)
  {
    '"' !in s && (s == [] || s[|s| - 1] != '\\')
  }

  /** The text `"key" "value"` followed by anything. */
  function KeyValueLine(key: string, val: string, rest: string): string
  {
    "\"" + key + "\" \"" + val + "\"" + rest
  }

  /** Where the parts of `"key" "value"rest` lie. */
  lemma KeyValueLineLayout(key: string, val: string, rest: string)
    ensures var st := KeyValueLine(key, val, rest);
      |st| == 5 + |key| + |val| + |rest|
      && st[0] == '"' && st[1..1 + |key|] == key
      && st[1 + |key|] == '"' && st[2 + |key|] == ' ' && st[3 + |key|] == '"'
      && st[4 + |key|..4 + |key| + |val|] == val && st[4 + |key| + |val|] == '"'
  {
    var st := KeyValueLine(key, val, rest);
    assert st == ['"'] + key + ['"', ' ', '"'] + val + ['"'] + rest;
  }

  /** Scanning `"key" "` leaves the scan inside the value's quotes with the
      key read. */
  lemma ScanKeyPart(st: string, key: string)
    requires IsQuotable(key) && key != []
    requires 4 + |key| <= |st|
    requires st[0] == '"' && st[1..1 + |key|] == key
    requires st[1 + |key|] == '"' && st[2 + |key|] == ' ' && st[3 + |key|] == '"'
    ensures ScanKeyValue(st, 0, StartScan) == ScanKeyValue(st, 4 + |key|, KeyValueScan(key, "", true, true, 0))
  {
    var k := |key|;
    var s1 := StartScan.(inQuotes := true);
    assert ScanKeyValue(st, 0, StartScan) == ScanKeyValue(st, 1, s1);
    assert forall m :: 1 <= m < 1 + k ==> st[m] == key[m - 1];
    ScanQuotedKey(st, 1, 1 + k, s1);
    var s2 := s1.(key := key);
    assert s1.(key := s1.key + st[1..1 + k]) == s2;
    assert st[k] == key[k - 1];
    var s3 := s2.(isVal := true, inQuotes := false);
    assert ScanKeyValue(st, 1 + k, s2) == ScanKeyValue(st, 2 + k, s3);
    assert ScanKeyValue(st, 2 + k, s3) == ScanKeyValue(st, 3 + k, s3);
    assert ScanKeyValue(st, 3 + k, s3) == ScanKeyValue(st, 4 + k, s3.(inQuotes := true));
  }

  /** A quote-free text copied into st at p leaves no quote there. */
  lemma QuoteFreeSlice(st: string, p: nat, val: string)
    requires '"' !in val
    requires p + |val| <= |st| && st[p..p + |val|] == val
    ensures forall m :: p <= m < p + |val| ==> st[m] != '"'
  {
    forall m | p <= m < p + |val|
      ensures st[m] != '"'
    {
      assert st[m] == val[m - p];
    }
  }

  /** The closing quote of the value ends the scan. */
  lemma ScanStopsAtClosingQuote(st: string, j: nat, s: KeyValueScan)
    requires j < |st| && TogglesQuote(st, j)
    requires s.inQuotes && s.isVal
    ensures ScanKeyValue(st, j, s) == s
  {
  }

  /** Scanning a quote-free value from inside its quotes reads all of it. */
  lemma ScanValueRun(st: string, p: nat, key: string, val: string)
    requires '"' !in val
    requires p + |val| <= |st| && st[p..p + |val|] == val
    ensures ScanKeyValue(st, p, KeyValueScan(key, "", true, true, 0))
      == ScanKeyValue(st, p + |val|, KeyValueScan(key, val, true, true, CountCommas(val)))
  {
    var s4 := KeyValueScan(key, "", true, true, 0);
    QuoteFreeSlice(st, p, val);
    ScanQuotedValue(st, p, p + |val|, s4);
    assert s4.val + st[p..p + |val|] == val;
  }

  /** Scanning `value"` from inside the value's quotes reads the value and
      stops at its closing quote. */
  lemma ScanValuePart(st: string, p: nat, key: string, val: string)
    requires IsQuotable(val)
    requires 1 <= p && p + |val| < |st|
    requires st[p..p + |val|] == val && st[p + |val|] == '"' && st[p - 1] == '"'
    ensures ScanKeyValue(st, p, KeyValueScan(key, "", true, true, 0)) == KeyValueScan(key, val, true, true, CountCommas(val))
  {
    var v := |val|;
    ScanValueRun(st, p, key, val);
    assert TogglesQuote(st, p + v) by {
      if v > 0 {
        assert st[p + v - 1] == val[v - 1];
      }
    }
    ScanStopsAtClosingQuote(st, p + v, KeyValueScan(key, val, true, true, CountCommas(val)));
  }

  /** Add reads back the pair written as `"key" "value"`: a fresh key gets
      exactly that value, whatever follows the closing quote. */
  lemma KeyValueLineRoundTrip(props: map<string, string>, key: string, val: string, rest: string)
    requires IsQuotable(key) && key != [] && IsQuotable(val)
    requires key !in props
    requires CountCommas(val) != 4 && CountCommas(val) != 6
    ensures AddProperty(props, KeyValueLine(key, val, rest)) == props[key := val]
  {
    var st := KeyValueLine(key, val, rest);
    KeyValueLineLayout(key, val, rest);
    ScanKeyPart(st, key);
    ScanValuePart(st, 4 + |key|, key, val);
  }

  // ---------------------------------------------------------------------
  // The line state machine

  /** The constructor's loop state; the brush text it collects is
      discarded by the original and is not kept here. */
  datatype LineState = LineState(braceCount: int, inBrush: bool, inConnections: bool, properties: map<string, string>)

  const StartLines := LineState(0, false, false, map[])

  predicate StartsWith(s: string, prefix: string)
  {
    |s| >= |prefix| && s[..|prefix|] == prefix
  }

  /** One line of the constructor's loop.  A `{` line does not end the
      iteration: unless it opened a brush it reaches Add, which stores
      nothing for it because it has no quoted key. */
  function LineStep(st: LineState, line: string): (r: LineState)
    ensures st.inBrush ==> r.properties == st.properties
  {
    CleanLineStep(st, Cull(Trim(line), 0, false))
  }

  /** The same step, given the line already trimmed and culled. */
  function CleanLineStep(st: LineState, current: string): (r: LineState)
    ensures st.inBrush ==> r.properties == st.properties
  {
    if current == [] then st
    else if current[0] == '{' then
      var afterBrace := st.(braceCount := st.braceCount + 1,
                        inBrush := st.inBrush || (st.braceCount == 1 && !st.inConnections));
      if afterBrace.inBrush then afterBrace
      else afterBrace.(properties := AddProperty(st.properties, current))
    else if current[0] == '}' then
      if st.braceCount - 1 == 1 then st.(braceCount := 1, inBrush := false, inConnections := false)
      else st.(braceCount := st.braceCount - 1)
    else if StartsWith(current, "solid") then st.(inBrush := true)
    else if StartsWith(current, "connections") then st.(inConnections := true)
    else if st.inBrush then st
    else st.(properties := AddProperty(st.properties, current))
  }

  /** One line keeps every stored value and can only add the key scanned
      from that line. */
  lemma LineStepKeeps(st: LineState, line: string)
    ensures forall k :: k in st.properties ==>
      k in LineStep(st, line).properties && LineStep(st, line).properties[k] == st.properties[k]
    ensures forall k :: k in LineStep(st, line).properties && k !in st.properties ==>
      k == ScanKeyValue(Cull(Trim(line), 0, false), 0, StartScan).key
  {
    AddPropertyKeeps(st.properties, Cull(Trim(line), 0, false));
  }

  /** The loop over lines from line i on. */
  function ProcessLines(lines: seq<string>, i: nat, st: LineState): (r: LineState)
    ensures forall k :: k in st.properties ==> k in r.properties && r.properties[k] == st.properties[k]
    decreases |lines| - i
  {
    if i >= |lines| then st
    else
      LineStepKeeps(st, lines[i]);
      ProcessLines(lines, i + 1, LineStep(st, lines[i]))
  }

  /** Across all the lines, a key once stored keeps its first value. */
  lemma {:induction false} FirstValueWins(lines: seq<string>, i: nat, st: LineState)
    ensures forall k :: k in st.properties ==>
      k in ProcessLines(lines, i, st).properties && ProcessLines(lines, i, st).properties[k] == st.properties[k]
    decreases |lines| - i
  {
    if i < |lines| {
      LineStepKeeps(st, lines[i]);
      FirstValueWins(lines, i + 1, LineStep(st, lines[i]));
    }
  }

  /** The dictionary an entity built from these lines holds. */
  function EntityProperties(lines: seq<string>): map<string, string>
  {
    ProcessLines(lines, 0, StartLines).properties
  }

  /** Only the key read from some line can become a property. */
  lemma {:induction false} PropertiesComeFromLines(lines: seq<string>, i: nat, st: LineState, k: string)
    requires k in ProcessLines(lines, i, st).properties && k !in st.properties
    ensures exists j :: i <= j < |lines| && k == ScanKeyValue(Cull(Trim(lines[j]), 0, false), 0, StartScan).key
    decreases |lines| - i
  {
    if i < |lines| {
      var next := LineStep(st, lines[i]);
      LineStepKeeps(st, lines[i]);
      if k !in next.properties {
        PropertiesComeFromLines(lines, i + 1, next, k);
      }
    }
  }

  class Entity {
    /** The dictionary the entity is. */
    var properties: map<string, string>

    /** Builds the entity from the lines of its text. */
    constructor (lines: seq<string>)
      ensures properties == EntityProperties(lines)
    {
      properties := map[];
      new;
      var braceCount := 0;
      var inConnections := false;
      var inBrush := false;
      for n := 0 to |lines|
        invariant ProcessLines(lines, 0, StartLines)
          == ProcessLines(lines, n, LineState(braceCount, inBrush, inConnections, properties))
      {
        ghost var before := LineState(braceCount, inBrush, inConnections, properties);
        var current := Trim(lines[n]);
        current := CullComment(current);
        assert LineStep(before, lines[n]) == CleanLineStep(before, current);
        braceCount, inBrush, inConnections := HandleLine(current, braceCount, inBrush, inConnections);
        assert LineStep(before, lines[n]) == LineState(braceCount, inBrush, inConnections, properties);
      }
    }

    /** The body of the constructor's loop for one trimmed, comment-free
        line; where the original ends the iteration early this returns. */
    method HandleLine(current: string, braceCount0: int, inBrush0: bool, inConnections0: bool)
      returns (braceCount: int, inBrush: bool, inConnections: bool)
      modifies this
      ensures LineState(braceCount, inBrush, inConnections, properties)
        == CleanLineStep(LineState(braceCount0, inBrush0, inConnections0, old(properties)), current)
    {
      braceCount, inBrush, inConnections := braceCount0, inBrush0, inConnections0;
      if current == [] {
        return;
      }
      if current[0] == '{' {
        if braceCount == 1 && !inBrush && !inConnections {
          inBrush := true;
        }
        braceCount := braceCount + 1;
      } else if current[0] == '}' {
        braceCount := braceCount - 1;
        if braceCount == 1 {
          inBrush := false;
          inConnections := false;
        }
        return;
      } else if |current| >= 5 && current[..5] == "solid" {
        inBrush := true;
        return;
      } else if |current| >= 11 && current[..11] == "connections" {
        inConnections := true;
        return;
      }
      if inBrush {
        return;
      }
      Add(current);
    }

    /** The key/value extraction of one line and its insertion. */
    method Add(st: string)
      modifies this
      ensures properties == AddProperty(old(properties), st)
    {
      var key := "";
      var val := "";
      var inQuotes := false;
      var isVal := false;
      var numCommas := 0;
      for i := 0 to |st|
        invariant ScanKeyValue(st, 0, StartScan) == ScanKeyValue(st, i, KeyValueScan(key, val, inQuotes, isVal, numCommas))
      {
        if st[i] == '"' && (i == 0 || st[i - 1] != '\\') {
          if inQuotes {
            if isVal {
              break;
            }
            isVal := true;
          }
          inQuotes := !inQuotes;
        } else {
          if inQuotes {
            if !isVal {
              key := key + [st[i]];
            } else {
              val := val + [st[i]];
              if st[i] == ',' || st[i] == CONNECTION_MEMBER_SEPARATOR {
                numCommas := numCommas + 1;
              }
            }
          }
        }
      }
      if key != "" {
        if numCommas == 4 || numCommas == 6 {
          // A connection; connections are not stored.
        } else {
          if key !in properties {
            properties := properties[key := val];
          }
        }
      }
    }

    /** Entity.FromString: one line per newline-separated piece. */
    static method FromString(value: string) returns (e: Entity)
      ensures fresh(e)
      ensures e.properties == EntityProperties(Split(value, '\n'))
    {
      e := new Entity(Split(value, '\n'));
    }

    /** The indexer's getter: the value, or "" for a missing key. */
    function Get(key: string): (r: string)
      reads this
      ensures key in properties ==> r == properties[key]
      ensures key !in properties ==> r == ""
    {
      if key in properties then properties[key] else ""
    }

    /** The indexer's setter overwrites. */
    method Set(key: string, value: string)
      modifies this
      ensures properties == old(properties)[key := value]
      ensures Get(key) == value
    {
      properties := properties[key := value];
    }
  }
}
