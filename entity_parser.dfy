/** The entity lump's byte-level scanner: it tracks double quotes and brace
    depth, collects the text of every top-level `{ ... }` block and turns
    each block into an entity as soon as it closes. */
module EntityParsing {
  import opened Wrappers
  import opened Bytes
  import opened EntityKeyValues
  import opened EntityLookup

  const QUOTE_BYTE: byte := 0x22
  const BACKSLASH_BYTE: byte := 0x5C
  const OPEN_BRACE: char := '{'
  const CLOSE_BRACE: char := '}'

  /** The scanner's state: quote state, brace depth, the text of the open
      block and the text of every block closed so far. */
  datatype ParseState = ParseState(inQuotes: bool, braceCount: int, current: string, blocks: seq<string>)

  const StartParse := ParseState(false, 0, "", [])

  /** A double quote not preceded by a backslash toggles the quote state. */
  predicate TogglesQuoteAt(d: seq<byte>, offset: nat)
    requires offset < |d|
  {
    d[offset] == QUOTE_BYTE && (offset == 0 || d[offset - 1] != BACKSLASH_BYTE)
  }

  /** A brace counts only at the start of the data or right after a
      newline, tab, space or carriage return. */
  predicate BraceLead(d: seq<byte>, offset: nat)
    requires offset < |d|
  {
    offset == 0 || d[offset - 1] == 0x0A || d[offset - 1] == 0x09 || d[offset - 1] == 0x20 || d[offset - 1] == 0x0D
  }

  /** One iteration of the byte loop.  A `{` that opens a block is kept as
      its first character; the `}` that closes it is kept as its last,
      after which the block is complete and the buffer is emptied. */
  function ParseStep(d: seq<byte>, offset: nat, st: ParseState): (r: ParseState)
    requires offset < |d|
    ensures |st.blocks| <= |r.blocks| <= |st.blocks| + 1 && r.blocks[..|st.blocks|] == st.blocks
  {
    var c := d[offset] as char;
    var inQuotes := if TogglesQuoteAt(d, offset) then !st.inQuotes else st.inQuotes;
    var braceCount :=
      if !inQuotes && c == OPEN_BRACE && BraceLead(d, offset) then st.braceCount + 1 else st.braceCount;
    var current := if braceCount > 0 then st.current + [c] else st.current;
    if !inQuotes && c == CLOSE_BRACE && BraceLead(d, offset) then
      if braceCount - 1 == 0 then ParseState(inQuotes, 0, "", st.blocks + [current])
      else ParseState(inQuotes, braceCount - 1, current, st.blocks)
    else ParseState(inQuotes, braceCount, current, st.blocks)
  }

  /** The byte loop from `offset` to the end: each remaining byte closes
      at most one block. */
  function ParseFrom(d: seq<byte>, offset: nat, st: ParseState): (r: ParseState)
    requires offset <= |d|
    ensures |r.blocks| <= |st.blocks| + (|d| - offset)
    decreases |d| - offset
  {
    if offset == |d| then st else ParseFrom(d, offset + 1, ParseStep(d, offset, st))
  }

  /** The blocks of the whole data and the depth it ends at: no more
      blocks than bytes, and none at all, at a depth that never rose, when
      the data holds no `{`. */
  function Scan(d: seq<byte>): (r: ParseState)
    ensures |r.blocks| <= |d|
    ensures (forall i :: 0 <= i < |d| ==> d[i] != '{' as int) ==> r.blocks == [] && r.braceCount <= 0
  {
    NoOpenBraceFrom(d);
    ParseFrom(d, 0, StartParse)
  }

  lemma NoOpenBraceFrom(d: seq<byte>)
    ensures (forall i :: 0 <= i < |d| ==> d[i] != '{' as int) ==>
      ParseFrom(d, 0, StartParse).blocks == [] && ParseFrom(d, 0, StartParse).braceCount <= 0
  {
    if forall i :: 0 <= i < |d| ==> d[i] != '{' as int {
      NoOpenBraceNoBlocks(d, 0, StartParse);
    }
  }

  /** The entity each block becomes: Entity.FromString of its text. */
  function BlockEntities(blocks: seq<string>): (r: seq<map<string, string>>)
    ensures |r| == |blocks|
    ensures forall i :: 0 <= i < |blocks| ==> r[i] == EntityProperties(Split(blocks[i], '\n'))
  {
    seq(|blocks|, i requires 0 <= i < |blocks| => EntityProperties(Split(blocks[i], '\n')))
  }

  /** The shape the scanner keeps: outside a block the buffer is empty,
      inside one it starts with the opening brace, and every block closed
      so far runs from a `{` to a `}`. */
  predicate Delimited(st: ParseState)
  {
    && (st.braceCount <= 0 ==> st.current == [])
    && (st.braceCount > 0 ==> |st.current| >= 1 && st.current[0] == OPEN_BRACE)
    && forall i :: 0 <= i < |st.blocks| ==>
         |st.blocks[i]| >= 2 && st.blocks[i][0] == OPEN_BRACE && st.blocks[i][|st.blocks[i]| - 1] == CLOSE_BRACE
  }

  lemma ParseStepDelimited(d: seq<byte>, offset: nat, st: ParseState)
    requires offset < |d| && Delimited(st)
    ensures Delimited(ParseStep(d, offset, st))
  {
    var r := ParseStep(d, offset, st);
    if |r.blocks| > |st.blocks| {
      assert r.blocks[..|st.blocks|] == st.blocks;
      var b := r.blocks[|st.blocks|];
      assert b == st.current + [d[offset] as char];
      assert forall i :: 0 <= i < |st.blocks| ==> r.blocks[i] == st.blocks[i];
    }
  }

  lemma {:induction false} ParseFromDelimited(d: seq<byte>, offset: nat, st: ParseState)
    requires offset <= |d| && Delimited(st)
    ensures Delimited(ParseFrom(d, offset, st))
    decreases |d| - offset
  {
    if offset < |d| {
      ParseStepDelimited(d, offset, st);
      ParseFromDelimited(d, offset + 1, ParseStep(d, offset, st));
    }
  }

  /** Every block handed to Entity.FromString starts with its opening `{`
      and ends with its closing `}`. */
  lemma BlocksAreBraced(d: seq<byte>)
    ensures forall i :: 0 <= i < |Scan(d).blocks| ==>
      |Scan(d).blocks[i]| >= 2 && Scan(d).blocks[i][0] == OPEN_BRACE
      && Scan(d).blocks[i][|Scan(d).blocks[i]| - 1] == CLOSE_BRACE
  {
    ParseFromDelimited(d, 0, StartParse);
  }

  /** Blocks are only ever appended: those closed before `offset` come
      first, in closing order. */
  lemma {:induction false} ParseFromAppends(d: seq<byte>, offset: nat, st: ParseState)
    requires offset <= |d|
    ensures |st.blocks| <= |ParseFrom(d, offset, st).blocks|
    ensures ParseFrom(d, offset, st).blocks[..|st.blocks|] == st.blocks
    decreases |d| - offset
  {
    if offset < |d| {
      var next := ParseStep(d, offset, st);
      ParseFromAppends(d, offset + 1, next);
      var r := ParseFrom(d, offset + 1, next);
      assert r.blocks[..|st.blocks|] == r.blocks[..|next.blocks|][..|st.blocks|];
    }
  }

  /** Text with no byte `{` opens no block: it yields no entity, and since
      `}` can only lower the depth, it ends at depth 0 exactly when it has
      no `}` that counts either. */
  lemma {:induction false} NoOpenBraceNoBlocks(d: seq<byte>, offset: nat, st: ParseState)
    requires offset <= |d|
    requires forall i :: offset <= i < |d| ==> d[i] != '{' as int
    requires st.braceCount <= 0 && st.blocks == [] && st.current == []
    ensures ParseFrom(d, offset, st).blocks == []
    ensures ParseFrom(d, offset, st).braceCount <= st.braceCount
    decreases |d| - offset
  {
    if offset < |d| {
      var next := ParseStep(d, offset, st);
      assert (d[offset] as char) != OPEN_BRACE;
      NoOpenBraceNoBlocks(d, offset + 1, next);
    }
  }

  class EntityParser {
    const data: seq<byte>
    /** The entities parsed so far; the parser is itself the list they are
        added to. */
    var items: seq<map<string, string>>

    constructor (data: seq<byte>)
      ensures this.data == data && items == []
    {
      this.data := data;
      items := [];
    }

    /** Parse: adds one entity per closed block to the parser's own list,
        then fails on a brace mismatch or returns all the entities the
        list holds.  The entities are added before the depth is checked,
        and a second call adds the same entities again. */
    method Parse() returns (r: Result<Entities>)
      modifies this
      ensures items == old(items) + BlockEntities(Scan(data).blocks)
      ensures Scan(data).braceCount != 0 ==> r == Err(BraceMismatch(Scan(data).braceCount))
      ensures Scan(data).braceCount == 0 ==> r == Ok(FromList(items))
    {
      var inQuotes := false;
      var braceCount := 0;
      var current: string := "";
      ghost var blocks: seq<string> := [];
      for offset := 0 to |data|
        invariant ParseFrom(data, 0, StartParse) == ParseFrom(data, offset, ParseState(inQuotes, braceCount, current, blocks))
        invariant items == old(items) + BlockEntities(blocks)
      {
        ghost var before := ParseState(inQuotes, braceCount, current, blocks);
        var currentChar := data[offset] as char;
        if currentChar == '"' && (offset == 0 || data[offset - 1] != BACKSLASH_BYTE) {
          inQuotes := !inQuotes;
        }
        var lead := offset == 0 || data[offset - 1] == 0x0A || data[offset - 1] == 0x09
                    || data[offset - 1] == 0x20 || data[offset - 1] == 0x0D;
        if !inQuotes && currentChar == '{' && lead {
          braceCount := braceCount + 1;
        }
        if braceCount > 0 {
          current := current + [currentChar];
        }
        if !inQuotes && currentChar == '}' && lead {
          braceCount := braceCount - 1;
          if braceCount == 0 {
            var entity := Entity.FromString(current);
            items := items + [entity.properties];
            blocks := blocks + [current];
            current := "";
          }
        }
        assert ParseStep(data, offset, before) == ParseState(inQuotes, braceCount, current, blocks);
      }
      if braceCount != 0 {
        return Err(BraceMismatch(braceCount));
      }
      return Ok(FromList(items));
    }
  }

  /** `{`, newline, `}`: one block holding the three characters. */
  lemma EmptyEntityExample()
    ensures Scan([0x7B, 0x0A, 0x7D]) == ParseState(false, 0, "", ["{\n}"])
  {
    var d: seq<byte> := [0x7B, 0x0A, 0x7D];
    var s1 := ParseStep(d, 0, StartParse);
    assert s1 == ParseState(false, 1, "{", []);
    var s2 := ParseStep(d, 1, s1);
    assert s2 == ParseState(false, 1, "{\n", []);
    var s3 := ParseStep(d, 2, s2);
    assert "{\n" + ['}'] == "{\n}";
    assert s3 == ParseState(false, 0, "", ["{\n}"]);
  }

  /** `{ " }" }`: the quoted `}` does not close the block, although it
      follows a space; the whole text is one block. */
  lemma QuotedBraceExample()
    ensures Scan([0x7B, 0x20, 0x22, 0x20, 0x7D, 0x22, 0x20, 0x7D]).blocks == ["{ \" }\" }"]
    ensures Scan([0x7B, 0x20, 0x22, 0x20, 0x7D, 0x22, 0x20, 0x7D]).braceCount == 0
  {
    var d: seq<byte> := [0x7B, 0x20, 0x22, 0x20, 0x7D, 0x22, 0x20, 0x7D];
    var s1 := ParseStep(d, 0, StartParse);
    assert s1 == ParseState(false, 1, "{", []);
    var s2 := ParseStep(d, 1, s1);
    assert s2 == ParseState(false, 1, "{ ", []);
    var s3 := ParseStep(d, 2, s2);
    assert s3 == ParseState(true, 1, "{ \"", []);
    var s4 := ParseStep(d, 3, s3);
    assert s4 == ParseState(true, 1, "{ \" ", []);
    var s5 := ParseStep(d, 4, s4);
    assert s5 == ParseState(true, 1, "{ \" }", []);
    var s6 := ParseStep(d, 5, s5);
    assert s6 == ParseState(false, 1, "{ \" }\"", []);
    var s7 := ParseStep(d, 6, s6);
    assert s7 == ParseState(false, 1, "{ \" }\" ", []);
    var s8 := ParseStep(d, 7, s7);
    assert "{ \" }\" " + ['}'] == "{ \" }\" }";
    assert s8 == ParseState(false, 0, "", ["{ \" }\" }"]);
  }

  /** A lone `}` at depth 0 still counts: the depth ends at -1, a brace
      mismatch. */
  lemma StrayCloseExample()
    ensures Scan([0x7D]).braceCount == -1 && Scan([0x7D]).blocks == []
  {
    var d: seq<byte> := [0x7D];
    assert ParseStep(d, 0, StartParse) == ParseState(false, -1, "", []);
  }

  /** `a{b}`: braces glued to other text do not count, so nothing is
      parsed and the depth stays 0. */
  lemma GluedBracesExample()
    ensures Scan([0x61, 0x7B, 0x62, 0x7D]) == StartParse
  {
    var d: seq<byte> := [0x61, 0x7B, 0x62, 0x7D];
    var s1 := ParseStep(d, 0, StartParse);
    assert s1 == StartParse;
    var s2 := ParseStep(d, 1, s1);
    assert s2 == StartParse;
    var s3 := ParseStep(d, 2, s2);
    assert s3 == StartParse;
    var s4 := ParseStep(d, 3, s3);
    assert s4 == StartParse;
  }
}
