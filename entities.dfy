/** The list of parsed entities and its lookup by value: indexing the list
    with a string yields the first entity holding that string as one of its
    values. */
module EntityLookup {

  /** Entities, in the order they were given; each is its key/value
      dictionary. */
  datatype Entities = Entities(items: seq<map<string, string>>)

  /** The constructor takes the entities over unchanged, so looking a
      value up answers with the first given entity that holds it, and with
      an empty dictionary when none does. */
  function FromList(entities: seq<map<string, string>>): (r: Entities)
    ensures |r.items| == |entities|
    ensures forall v, i :: FirstHolder(entities, v, i) ==> Lookup(r, v) == entities[i]
    ensures forall v :: (forall i :: 0 <= i < |entities| ==> !HasValue(entities[i], v)) ==> Lookup(r, v) == map[]
  {
    LookupFindsFirst(Entities(entities));
    Entities(entities)
  }

  /** The lookup's answer is the entity at the first index holding the
      value. */
  lemma LookupFindsFirst(es: Entities)
    ensures forall v, i :: FirstHolder(es.items, v, i) ==> Lookup(es, v) == es.items[i]
  {
    forall v, i | FirstHolder(es.items, v, i)
      ensures Lookup(es, v) == es.items[i]
    {
      assert FindIndexFrom(es.items, v, 0) == i;
    }
  }

  /** Whether some value of the entity is exactly v. */
  predicate HasValue(entity: map<string, string>, v: string)
  {
    v in entity.Values
  }

  /** Entity i is the first of the list holding the value v. */
  predicate FirstHolder(items: seq<map<string, string>>, v: string, i: int)
  {
    0 <= i < |items| && HasValue(items[i], v) && forall j :: 0 <= j < i ==> !HasValue(items[j], v)
  }

  /** List.FindIndex from position i on: the first index whose entity has
      the value, or -1. */
  function FindIndexFrom(items: seq<map<string, string>>, v: string, i: nat): (r: int)
    requires i <= |items|
    ensures r == -1 || (i <= r < |items| && HasValue(items[r], v))
    ensures r == -1 ==> forall j :: i <= j < |items| ==> !HasValue(items[j], v)
    ensures r != -1 ==> forall j :: i <= j < r ==> !HasValue(items[j], v)
    decreases |items| - i
  {
    if i == |items| then -1
    else if HasValue(items[i], v) then i
    else FindIndexFrom(items, v, i + 1)
  }

  /** The getter of the string indexer: the lowest-index entity with the
      value, or a new empty dictionary. */
  function Lookup(es: Entities, v: string): (r: map<string, string>)
    ensures (exists i :: 0 <= i < |es.items| && HasValue(es.items[i], v)) ==>
      exists i :: 0 <= i < |es.items| && r == es.items[i] && HasValue(r, v)
        && forall j :: 0 <= j < i ==> !HasValue(es.items[j], v)
    ensures (forall i :: 0 <= i < |es.items| ==> !HasValue(es.items[i], v)) ==> r == map[]
  {
    var index := FindIndexFrom(es.items, v, 0);
    if index != -1 then es.items[index] else map[]
  }

  /** The setter of the string indexer ignores its value: the list, and so
      every lookup, stays as it was. */
  function Assign(es: Entities, v: string, value: map<string, string>): (r: Entities)
    ensures r.items == es.items
    ensures forall w :: Lookup(r, w) == Lookup(es, w)
  {
    es
  }

  /** An entity found by value holds that value, unless nothing matched. */
  lemma LookupHoldsValue(es: Entities, v: string)
    ensures HasValue(Lookup(es, v), v) || Lookup(es, v) == map[]
    ensures HasValue(Lookup(es, v), v) <==> exists i :: 0 <= i < |es.items| && HasValue(es.items[i], v)
  {
    var index := FindIndexFrom(es.items, v, 0);
    if index != -1 {
      assert HasValue(es.items[index], v);
    }
  }

  /** Putting entities in front never changes the answer for a value that
      they do not hold: the first match wins. */
  lemma {:induction false} LookupSkipsNonMatching(front: seq<map<string, string>>, back: seq<map<string, string>>, v: string)
    requires forall i :: 0 <= i < |front| ==> !HasValue(front[i], v)
    ensures Lookup(Entities(front + back), v) == Lookup(Entities(back), v)
  {
    var all := front + back;
    var a := FindIndexFrom(all, v, 0);
    var b := FindIndexFrom(back, v, 0);
    if b != -1 {
      assert all[|front| + b] == back[b];
    }
    if a != -1 {
      assert a >= |front|;
      assert all[a] == back[a - |front|];
    }
  }
}
