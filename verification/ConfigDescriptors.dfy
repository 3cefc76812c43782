/** Walking a configuration descriptor: a list of descriptors laid end to end, each starting with its own size
  and its type (section 9.5 of the USB 2.0 specification).

  The walker is a pointer and the number of bytes left from there. Stepping on to the next descriptor clamps
  the size to what is left, and the searches look at the type byte even when nothing is left, so the memory has
  to go on for two bytes after the descriptors. */
module ConfigDescriptors {
  import opened Bytes
  import opened Sequences

  datatype Cursor = Cursor(loc: nat, rem: nat)

  predicate InMemory(mem: seq<Byte>, c: Cursor) {
    c.loc + c.rem + 2 <= |mem|
  }

  function TypeAt(mem: seq<Byte>, c: Cursor): Byte
    requires InMemory(mem, c)
  {
    mem[c.loc + 1]
  }

  /** The size of the descriptor at the cursor, as far as it lies in the list. */
  function ClampedSize(mem: seq<Byte>, c: Cursor): nat
    requires InMemory(mem, c)
  {
    if c.rem < mem[c.loc] then c.rem else mem[c.loc]
  }

  function Next(mem: seq<Byte>, c: Cursor): Cursor
    requires InMemory(mem, c)
  {
    Cursor(c.loc + ClampedSize(mem, c), c.rem - ClampedSize(mem, c))
  }

  /** No descriptor that a walk from `c` steps over has size zero. */
  predicate Walkable(mem: seq<Byte>, c: Cursor)
    requires InMemory(mem, c)
    decreases c.rem
  {
    c.rem > 0 ==> mem[c.loc] > 0 && Walkable(mem, Next(mem, c))
  }

  /** Every cursor that a walk from `c` reaches, in order; the last one has nothing left. */
  function Walk(mem: seq<Byte>, c: Cursor): (visits: seq<Cursor>)
    requires InMemory(mem, c) && Walkable(mem, c)
    ensures forall i :: 0 <= i < |visits| ==>
              && InMemory(mem, visits[i]) && Walkable(mem, visits[i])
              && visits[i].loc + visits[i].rem == c.loc + c.rem && visits[i].rem < c.rem
    ensures visits == [] <==> c.rem == 0
    ensures visits != [] ==> visits[|visits| - 1].rem == 0
    decreases c.rem
  {
    if c.rem == 0 then [] else [Next(mem, c)] + Walk(mem, Next(mem, c))
  }

  /** A descriptor that does not fit what remains ends the walk; any other one is stepped over. */
  lemma OneStepOfTheWalk(mem: seq<Byte>, c: Cursor)
    requires InMemory(mem, c) && Walkable(mem, c) && c.rem > 0
    ensures mem[c.loc] >= c.rem ==> Walk(mem, c) == [Cursor(c.loc + c.rem, 0)]
    ensures mem[c.loc] < c.rem ==>
              var n := Cursor(c.loc + mem[c.loc], c.rem - mem[c.loc]);
              InMemory(mem, n) && Walkable(mem, n) && Walk(mem, c) == [n] + Walk(mem, n)
  {
  }

  function End(c: Cursor): Cursor {
    Cursor(c.loc + c.rem, 0)
  }

  // The searches by type

  /** The cursor that a search for one of the types ends with. */
  function Found(mem: seq<Byte>, c: Cursor, types: set<Byte>): (f: Cursor)
    requires InMemory(mem, c) && Walkable(mem, c)
    ensures InMemory(mem, f) && Walkable(mem, f) && f.loc + f.rem == c.loc + c.rem
    decreases c.rem
  {
    var n := Next(mem, c);
    if c.rem == 0 then c
    else if n.rem == 0 || TypeAt(mem, n) in types then n
    else Found(mem, n, types)
  }

  predicate Matches(mem: seq<Byte>, c: Cursor, types: set<Byte>) {
    InMemory(mem, c) && c.rem > 0 && TypeAt(mem, c) in types
  }

  /** The search stops at the first visited descriptor with one of the types, and at the end if there is none. */
  lemma {:induction false} FoundIsTheFirstMatch(mem: seq<Byte>, c: Cursor, types: set<Byte>) returns (k: nat)
    requires InMemory(mem, c) && Walkable(mem, c)
    ensures IsFirstMatch(mem, c, types, k)
    decreases c.rem
  {
    var n := Next(mem, c);
    if c.rem == 0 || Matches(mem, n, types) {
      k := 0;
    } else {
      k := FoundIsTheFirstMatch(mem, n, types);
      FirstMatchShifts(mem, c, types, k);
      k := k + 1;
    }
  }

  /** The first `k` visits do not match, and the search ends at the next one, which does, or at the end. */
  ghost predicate IsFirstMatch(mem: seq<Byte>, c: Cursor, types: set<Byte>, k: nat)
    requires InMemory(mem, c) && Walkable(mem, c)
  {
    var visits := Walk(mem, c);
    && k <= |visits|
    && (forall i :: 0 <= i < k ==> !Matches(mem, visits[i], types))
    && if k == |visits| then Found(mem, c, types) == End(c)
       else Found(mem, c, types) == visits[k] && Matches(mem, visits[k], types)
  }

  lemma FirstMatchShifts(mem: seq<Byte>, c: Cursor, types: set<Byte>, k: nat)
    requires InMemory(mem, c) && Walkable(mem, c) && c.rem > 0
    requires !Matches(mem, Next(mem, c), types)
    requires IsFirstMatch(mem, Next(mem, c), types, k)
    ensures IsFirstMatch(mem, c, types, k + 1)
  {
    assert Found(mem, c, types) == Found(mem, Next(mem, c), types);
  }

  // The search with a comparator

  const SEARCH_FAIL: Byte := 1
  const SEARCH_NOT_FOUND: Byte := 2
  const COMP_END_OF_DESCRIPTOR: Byte := 2

  /** A comparator answers for the place it is shown. */
  type Comparator = nat -> Byte

  /** The code and the cursor that a search with a comparator ends with. */
  function Searched(mem: seq<Byte>, c: Cursor, answer: Comparator): (r: (Byte, Cursor))
    requires InMemory(mem, c) && Walkable(mem, c)
    ensures InMemory(mem, r.1) && Walkable(mem, r.1) && r.1.loc + r.1.rem == c.loc + c.rem
    decreases c.rem
  {
    var n := Next(mem, c);
    if c.rem == 0 then (COMP_END_OF_DESCRIPTOR, c)
    else if answer(n.loc) == SEARCH_NOT_FOUND then Searched(mem, n, answer)
    else if answer(n.loc) == SEARCH_FAIL then (SEARCH_FAIL, c)
    else (answer(n.loc), n)
  }

  /** The search ends with the first visit that the comparator has an answer for. If the answer is that the
    search fails, the cursor is put back so that the walk from it starts with that very descriptor: another
    comparator is then shown it first, and after it everything that follows. */
  lemma {:induction false} SearchedIsTheFirstAnswer(mem: seq<Byte>, c: Cursor, answer: Comparator) returns (k: nat)
    requires InMemory(mem, c) && Walkable(mem, c)
    ensures IsFirstAnswer(mem, c, answer, k)
    decreases c.rem
  {
    var n := Next(mem, c);
    if c.rem == 0 || answer(n.loc) != SEARCH_NOT_FOUND {
      k := 0;
    } else {
      k := SearchedIsTheFirstAnswer(mem, n, answer);
      FirstAnswerShifts(mem, c, answer, k);
      k := k + 1;
    }
  }

  /** The comparator answers 2, which is to go on, at the first `k` visits; the search ends as the next one, or
    the end, demands. */
  ghost predicate IsFirstAnswer(mem: seq<Byte>, c: Cursor, answer: Comparator, k: nat)
    requires InMemory(mem, c) && Walkable(mem, c)
  {
    var visits := Walk(mem, c);
    var (code, f) := Searched(mem, c, answer);
    && k <= |visits|
    && (forall i :: 0 <= i < k ==> answer(visits[i].loc) == 2)
    && if k == |visits| then code == 2 && f == End(c)
       else
         && code == answer(visits[k].loc) != 2
         && if code == 1 then Walk(mem, f) == visits[k..] else f == visits[k]
  }

  lemma FirstAnswerShifts(mem: seq<Byte>, c: Cursor, answer: Comparator, k: nat)
    requires InMemory(mem, c) && Walkable(mem, c) && c.rem > 0
    requires answer(Next(mem, c).loc) == SEARCH_NOT_FOUND
    requires IsFirstAnswer(mem, Next(mem, c), answer, k)
    ensures IsFirstAnswer(mem, c, answer, k + 1)
  {
    var n := Next(mem, c);
    DropOneMore(n, Walk(mem, n), k);
    assert Searched(mem, c, answer) == Searched(mem, n, answer);
  }

  // The code

  class Walker {
    const mem: seq<Byte>
    var bytesRem: nat
    var currConfigLoc: nat

    function At(): Cursor
      reads this
    {
      Cursor(currConfigLoc, bytesRem)
    }

    ghost predicate Valid()
      reads this
    {
      InMemory(mem, At()) && Walkable(mem, At())
    }

    constructor (mem: seq<Byte>, loc: nat, rem: nat)
      ensures this.mem == mem && At() == Cursor(loc, rem)
    {
      this.mem, currConfigLoc, bytesRem := mem, loc, rem;
    }

    method GetNextDescriptor()
      requires InMemory(mem, At())
      modifies this
      ensures At() == Next(mem, old(At()))
    {
      var currDescriptorSize: nat := mem[currConfigLoc];
      if bytesRem < currDescriptorSize {
        currDescriptorSize := bytesRem;
      }
      currConfigLoc := currConfigLoc + currDescriptorSize;
      bytesRem := bytesRem - currDescriptorSize;
    }

    method GetNextDescriptorOfType(t: Byte)
      requires Valid()
      modifies this
      ensures Valid() && At() == Found(mem, old(At()), {t})
    {
      while bytesRem > 0
        invariant Valid()
        invariant Found(mem, At(), {t}) == Found(mem, old(At()), {t})
        decreases bytesRem
      {
        GetNextDescriptor();
        if mem[currConfigLoc + 1] == t {
          return;
        }
      }
    }

    /** Reaching the other type first leaves the cursor there, with nothing left. */
    method GetNextDescriptorOfTypeBefore(t: Byte, beforeType: Byte)
      requires Valid()
      modifies this
      ensures Valid()
      ensures var f := Found(mem, old(At()), {t, beforeType});
              At() == if f.rem > 0 && TypeAt(mem, f) != t then Cursor(f.loc, 0) else f
    {
      ghost var types := {t, beforeType};
      while bytesRem > 0
        invariant Valid()
        invariant Found(mem, At(), types) == Found(mem, old(At()), types)
        decreases bytesRem
      {
        GetNextDescriptor();
        if mem[currConfigLoc + 1] == t {
          return;
        } else if mem[currConfigLoc + 1] == beforeType {
          bytesRem := 0;
          return;
        }
      }
    }

    method GetNextDescriptorOfTypeAfter(t: Byte, afterType: Byte)
      requires Valid()
      modifies this
      ensures Valid()
      ensures var f := Found(mem, old(At()), {afterType});
              At() == if f.rem > 0 then Found(mem, f, {t}) else f
    {
      GetNextDescriptorOfType(afterType);
      if bytesRem > 0 {
        GetNextDescriptorOfType(t);
      }
    }

    method GetNextDescriptorComp(answer: Comparator) returns (code: Byte)
      requires Valid()
      modifies this
      ensures Valid() && (code, At()) == Searched(mem, old(At()), answer)
      ensures currConfigLoc + bytesRem == old(currConfigLoc + bytesRem)
    {
      while bytesRem > 0
        invariant Valid()
        invariant Searched(mem, At(), answer) == Searched(mem, old(At()), answer)
        decreases bytesRem
      {
        var prevDescLoc, prevBytesRem := currConfigLoc, bytesRem;
        GetNextDescriptor();
        code := answer(currConfigLoc);
        if code != SEARCH_NOT_FOUND {
          if code == SEARCH_FAIL {
            currConfigLoc, bytesRem := prevDescLoc, prevBytesRem;
          }
          return code;
        }
      }
      return COMP_END_OF_DESCRIPTOR;
    }
  }

  // The list of descriptors

  type Descriptor = seq<Byte>

  function Flat(ds: seq<Descriptor>): seq<Byte> {
    if ds == [] then [] else ds[0] + Flat(ds[1..])
  }

  /** The descriptors from the cursor on; the last one may be cut short. */
  function Parse(mem: seq<Byte>, c: Cursor): seq<Descriptor>
    requires InMemory(mem, c) && Walkable(mem, c)
    decreases c.rem
  {
    if c.rem == 0 then []
    else [mem[c.loc..c.loc + ClampedSize(mem, c)]] + Parse(mem, Next(mem, c))
  }

  /** A descriptor has a size and a type, and its size is right. */
  predicate WellFormed(d: Descriptor) {
    |d| >= 2 && d[0] == |d|
  }

  predicate AllWellFormed(ds: seq<Descriptor>) {
    forall i :: 0 <= i < |ds| ==> WellFormed(ds[i])
  }

  /** The place of the first descriptor after the first one that has one of the types, or the end of the list. */
  function LaterOf(ds: seq<Descriptor>, types: set<Byte>): (j: nat)
    requires ds != [] && AllWellFormed(ds)
    ensures 1 <= j <= |ds|
    ensures j < |ds| ==> ds[j][1] in types
    ensures forall i :: 1 <= i < j ==> ds[i][1] !in types
  {
    if |ds| == 1 || ds[1][1] in types then 1 else 1 + LaterOf(ds[1..], types)
  }

  /** Parsing loses nothing: the parsed descriptors, laid end to end, are the bytes that were parsed. */
  lemma {:induction false} ParsedBytesAreTheBytes(mem: seq<Byte>, c: Cursor)
    requires InMemory(mem, c) && Walkable(mem, c)
    ensures Flat(Parse(mem, c)) == mem[c.loc..c.loc + c.rem]
    ensures Parse(mem, c) == [] <==> c.rem == 0
    decreases c.rem
  {
    if c.rem > 0 {
      var n := Next(mem, c);
      ParsedBytesAreTheBytes(mem, n);
      assert Parse(mem, c)[1..] == Parse(mem, n);
      assert mem[c.loc..n.loc] + mem[n.loc..n.loc + n.rem] == mem[c.loc..c.loc + c.rem];
    }
  }

  /** And it is the inverse of laying well-formed descriptors end to end, wherever they lie in memory. */
  lemma {:induction false} ParseGivesTheDescriptorsBack(before: seq<Byte>, ds: seq<Descriptor>, after: seq<Byte>)
    requires AllWellFormed(ds) && |after| >= 2
    ensures var mem := before + Flat(ds) + after;
            var c := Cursor(|before|, |Flat(ds)|);
            Walkable(mem, c) && Parse(mem, c) == ds
    decreases |ds|
  {
    if ds != [] {
      var mem := before + Flat(ds) + after;
      var c := Cursor(|before|, |Flat(ds)|);
      var d := ds[0];
      assert mem == (before + d) + Flat(ds[1..]) + after;
      ParseGivesTheDescriptorsBack(before + d, ds[1..], after);
      assert mem[|before|..|before| + |d|] == d;
      assert mem[c.loc] == d[0] == |d|;
      assert Next(mem, c) == Cursor(|before + d|, |Flat(ds[1..])|);
    }
  }

  /** Where the j-th of the descriptors at a cursor lies. */
  function PlaceOf(c: Cursor, ds: seq<Descriptor>, j: nat): Cursor
    requires j <= |ds|
  {
    Cursor(c.loc + |Flat(ds[..j])|, |Flat(ds[j..])|)
  }

  /** On well-formed descriptors a search by type is the search of the list: from the cursor's descriptor it
    goes to the next one that has one of the types, passing none, and to the end of the list if there is none. */
  lemma {:induction false} SearchIsListSearch(mem: seq<Byte>, c: Cursor, types: set<Byte>)
    requires InMemory(mem, c) && Walkable(mem, c) && c.rem > 0
    requires AllWellFormed(Parse(mem, c))
    ensures Parse(mem, c) != []
    ensures var ds := Parse(mem, c);
            Found(mem, c, types) == PlaceOf(c, ds, LaterOf(ds, types))
    ensures var ds := Parse(mem, c);
            var j := LaterOf(ds, types);
            Parse(mem, Found(mem, c, types)) == ds[j..]
  {
    FoundParsesToTheRest(mem, c, types);
    PlaceOfRest(mem, c, Found(mem, c, types), LaterOf(Parse(mem, c), types));
  }

  lemma {:induction false} FoundParsesToTheRest(mem: seq<Byte>, c: Cursor, types: set<Byte>)
    requires InMemory(mem, c) && Walkable(mem, c) && c.rem > 0
    requires AllWellFormed(Parse(mem, c))
    ensures Parse(mem, c) != []
    ensures Parse(mem, Found(mem, c, types)) == Parse(mem, c)[LaterOf(Parse(mem, c), types)..]
    decreases c.rem
  {
    var n := Next(mem, c);
    var ds := Parse(mem, c);
    assert ds[1..] == Parse(mem, n);
    if n.rem > 0 {
      ParseHead(mem, n);
      if TypeAt(mem, n) !in types {
        FoundParsesToTheRest(mem, n, types);
      }
    }
  }

  /** The rest of the list lies where the descriptors before it end. */
  lemma PlaceOfRest(mem: seq<Byte>, c: Cursor, f: Cursor, j: nat)
    requires InMemory(mem, c) && Walkable(mem, c) && InMemory(mem, f) && Walkable(mem, f)
    requires f.loc + f.rem == c.loc + c.rem && j <= |Parse(mem, c)| && Parse(mem, f) == Parse(mem, c)[j..]
    ensures f == PlaceOf(c, Parse(mem, c), j)
  {
    ParsedBytesAreTheBytes(mem, c);
    ParsedBytesAreTheBytes(mem, f);
    FlatSplits(Parse(mem, c), j);
  }

  lemma {:induction false} FlatSplits(ds: seq<Descriptor>, j: nat)
    requires j <= |ds|
    ensures Flat(ds) == Flat(ds[..j]) + Flat(ds[j..])
    decreases j
  {
    if j > 0 {
      FlatSplits(ds[1..], j - 1);
      assert ds[..j][0] == ds[0] && ds[..j][1..] == ds[1..][..j - 1] && ds[1..][j - 1..] == ds[j..];
    } else {
      assert ds[j..] == ds;
    }
  }

  /** Two memories that hold the same well-formed descriptors give the same result, whatever follows them. */
  lemma {:induction false} PaddingDoesNotMatter(mem: seq<Byte>, other: seq<Byte>, c: Cursor, types: set<Byte>)
    requires InMemory(mem, c) && InMemory(other, c) && Walkable(mem, c)
    requires AllWellFormed(Parse(mem, c))
    requires forall i :: c.loc <= i < c.loc + c.rem ==> other[i] == mem[i]
    ensures Walkable(other, c) && Found(other, c, types) == Found(mem, c, types)
    ensures var f := Found(mem, c, types);
            f.rem > 0 ==> TypeAt(other, f) == TypeAt(mem, f)
    decreases c.rem
  {
    if c.rem > 0 {
      var n := Next(mem, c);
      var ds := Parse(mem, n);
      assert Parse(mem, c)[1..] == ds;
      assert Next(other, c) == n;
      PaddingDoesNotMatter(mem, other, n, types);
      if n.rem > 0 {
        assert WellFormed(ds[0]) && |ds[0]| == ClampedSize(mem, n) <= n.rem;
        assert TypeAt(other, n) == TypeAt(mem, n);
      }
    }
  }

  /** Nor do the bytes behind them matter to the search for a type before another, which also looks at the type it
    has stopped at, or to the search for a type after another. */
  lemma PaddingDoesNotMatterBeforeOrAfter(mem: seq<Byte>, other: seq<Byte>, c: Cursor, t: Byte, that: Byte)
    requires InMemory(mem, c) && InMemory(other, c) && Walkable(mem, c) && c.rem > 0
    requires AllWellFormed(Parse(mem, c))
    requires forall i :: c.loc <= i < c.loc + c.rem ==> other[i] == mem[i]
    ensures Walkable(other, c)
    ensures var f := Found(mem, c, {t, that});
            Found(other, c, {t, that}) == f && (f.rem > 0 ==> TypeAt(other, f) == TypeAt(mem, f))
    ensures var f := Found(mem, c, {that});
            Found(other, c, {that}) == f && Walkable(other, f) && Found(other, f, {t}) == Found(mem, f, {t})
  {
    PaddingDoesNotMatter(mem, other, c, {t, that});
    PaddingDoesNotMatter(mem, other, c, {that});
    SearchIsListSearch(mem, c, {that});
    PaddingDoesNotMatter(mem, other, Found(mem, c, {that}), {t});
  }

  lemma ParseHead(mem: seq<Byte>, c: Cursor)
    requires InMemory(mem, c) && Walkable(mem, c) && c.rem > 0
    requires WellFormed(Parse(mem, c)[0])
    ensures Parse(mem, c)[0][1] == TypeAt(mem, c)
  {
  }

  /** On well-formed descriptors the search for a type before another succeeds exactly when the first of the two
    in the rest of the list is the type. */
  lemma BeforeIsListSearch(mem: seq<Byte>, c: Cursor, t: Byte, before: Byte)
    requires InMemory(mem, c) && Walkable(mem, c) && c.rem > 0
    requires AllWellFormed(Parse(mem, c))
    ensures Parse(mem, c) != []
    ensures var ds := Parse(mem, c);
            var f, j := Found(mem, c, {t, before}), LaterOf(ds, {t, before});
            f.rem > 0 && TypeAt(mem, f) == t <==> j < |ds| && ds[j][1] == t
  {
    FoundInList(mem, c, {t, before});
  }

  /** The search for a type after another succeeds in its first half exactly when the other type comes later in
    the list, and then goes on from there. */
  lemma AfterIsListSearch(mem: seq<Byte>, c: Cursor, t: Byte, after: Byte)
    requires InMemory(mem, c) && Walkable(mem, c) && c.rem > 0
    requires AllWellFormed(Parse(mem, c))
    ensures Parse(mem, c) != []
    ensures var ds := Parse(mem, c);
            var f, j := Found(mem, c, {after}), LaterOf(ds, {after});
            && (f.rem > 0 <==> j < |ds|)
            && (f.rem > 0 ==> Found(mem, f, {t}) == PlaceOf(f, ds[j..], LaterOf(ds[j..], {t})))
  {
    var f := Found(mem, c, {after});
    FoundInList(mem, c, {after});
    if f.rem > 0 {
      SearchIsListSearch(mem, f, {t});
    }
  }

  lemma FoundInList(mem: seq<Byte>, c: Cursor, types: set<Byte>)
    requires InMemory(mem, c) && Walkable(mem, c) && c.rem > 0
    requires AllWellFormed(Parse(mem, c))
    ensures Parse(mem, c) != []
    ensures var ds := Parse(mem, c);
            var f, j := Found(mem, c, types), LaterOf(ds, types);
            && Parse(mem, f) == ds[j..]
            && (f.rem > 0 <==> j < |ds|)
            && (f.rem > 0 ==> TypeAt(mem, f) == ds[j][1])
  {
    var ds := Parse(mem, c);
    var f := Found(mem, c, types);
    SearchIsListSearch(mem, c, types);
    ParsedBytesAreTheBytes(mem, f);
    if f.rem > 0 {
      assert Parse(mem, f)[0] == ds[LaterOf(ds, types)];
      ParseHead(mem, f);
    }
  }
}
