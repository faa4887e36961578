/** Cutting a dossier into topics: the search for the height to cut at, over nested
    partitions; names that do not repeat; and the write-back of memberships. */
module Topics {
  import opened Mappings

  // ----- groups of one partition -----

  type Labels = seq<int>

  /** How many of the first `n` documents carry label `x`. */
  function Size(ls: Labels, x: int, n: nat): nat
    requires n <= |ls|
  {
    if n == 0 then 0 else Size(ls, x, n - 1) + (if ls[n - 1] == x then 1 else 0)
  }

  function GroupSize(ls: Labels, x: int): nat { Size(ls, x, |ls|) }

  /** The documents with the label. */
  lemma {:induction false} SizeIs(ls: Labels, x: int, n: nat)
    requires n <= |ls|
    ensures Size(ls, x, n) == |set a | 0 <= a < n && ls[a] == x|
  {
    if n > 0 {
      SizeIs(ls, x, n - 1);
      assert (set a | 0 <= a < n && ls[a] == x)
          == (set a | 0 <= a < n - 1 && ls[a] == x) + if ls[n - 1] == x then {n - 1} else {};
    }
  }

  /** No group is larger than the limit. */
  predicate Fits(ls: Labels, limit: real) {
    forall a :: 0 <= a < |ls| ==> GroupSize(ls, ls[a]) as real <= limit
  }

  /** The labels of the groups of at least `minSize`. */
  function Groups(ls: Labels, minSize: nat): set<int> { set x | x in ls && GroupSize(ls, x) >= minSize }

  /** A higher cut only merges groups. */
  ghost predicate Merges(low: Labels, high: Labels) {
    |low| == |high| && forall a, b :: 0 <= a < |low| && 0 <= b < |low| && low[a] == low[b] ==> high[a] == high[b]
  }

  ghost predicate Nested(cuts: seq<Labels>) {
    forall i, j :: 0 <= i <= j < |cuts| ==> Merges(cuts[i], cuts[j])
  }

  lemma {:induction false} SizeGrows(low: Labels, high: Labels, a: nat, n: nat)
    requires Merges(low, high) && a < |low| && n <= |low|
    ensures Size(low, low[a], n) <= Size(high, high[a], n)
  {
    if n > 0 { SizeGrows(low, high, a, n - 1); }
  }

  /** What fits at a height fits at every lower one: group sizes grow with the height
      because the groups are nested. */
  lemma FitsBelow(cuts: seq<Labels>, i: nat, j: nat, limit: real)
    requires Nested(cuts) && i <= j < |cuts| && Fits(cuts[j], limit)
    ensures Fits(cuts[i], limit)
  {
    forall a | 0 <= a < |cuts[i]| ensures GroupSize(cuts[i], cuts[i][a]) as real <= limit {
      SizeGrows(cuts[i], cuts[j], a, |cuts[i]|);
    }
  }

  // ----- the height to cut at -----

  ghost predicate HighestFit(cuts: seq<Labels>, limit: real, k: nat) {
    && k < |cuts| && Fits(cuts[k], limit)
    && forall i :: k < i < |cuts| ==> !Fits(cuts[i], limit)
  }

  ghost predicate HighestPair(cuts: seq<Labels>, minSize: nat, k: nat) {
    && k < |cuts| && |Groups(cuts[k], minSize)| >= 2
    && forall i :: k < i < |cuts| ==> |Groups(cuts[i], minSize)| < 2
  }

  /** The highest cut that fits, or the lowest when none does. */
  ghost predicate BaseCut(cuts: seq<Labels>, limit: real, k: nat)
    requires cuts != []
  {
    if exists i :: 0 <= i < |cuts| && Fits(cuts[i], limit) then HighestFit(cuts, limit, k) else k == 0
  }

  /** Where the dossier is cut: at the base cut if it leaves a group of `minSize`; if
      not, at the highest cut with two of them, when there is one. */
  ghost predicate CutAt(cuts: seq<Labels>, limit: real, minSize: nat, base: nat, best: nat)
    requires cuts != []
  {
    && BaseCut(cuts, limit, base) && base < |cuts|
    && (if Groups(cuts[base], minSize) == {} && exists i :: 0 <= i < |cuts| && |Groups(cuts[i], minSize)| >= 2
        then HighestPair(cuts, minSize, best)
        else best == base)
  }

  /** The binary search: the highest cut that fits, or the lowest when none does. */
  method SearchFit(cuts: seq<Labels>, limit: real) returns (best: nat)
    requires cuts != [] && Nested(cuts)
    ensures BaseCut(cuts, limit, best)
  {
    var low, high := 0, |cuts| - 1;
    best := 0;
    while low <= high
      invariant 0 <= low <= |cuts| && -1 <= high < |cuts| && best < |cuts|
      invariant forall i :: high < i < |cuts| ==> !Fits(cuts[i], limit)
      invariant if low == 0 then best == 0 else best == low - 1 && Fits(cuts[best], limit)
      decreases high - low + 1
    {
      var mid := (low + high) / 2;
      if Fits(cuts[mid], limit) {
        best := mid;
        low := mid + 1;
      } else {
        forall i | mid <= i < |cuts| ensures !Fits(cuts[i], limit) {
          if Fits(cuts[i], limit) { FitsBelow(cuts, mid, i, limit); }
        }
        high := mid - 1;
      }
    }
  }

  /** `_clusters`, given the cuts of the tree at its own heights: the highest cut that
      fits; if that leaves no group of `minSize`, the highest with two of them. */
  method Clusters(cuts: seq<Labels>, limit: real, minSize: nat) returns (best: nat)
    requires cuts != [] && Nested(cuts)
    ensures best < |cuts| && exists base: nat :: CutAt(cuts, limit, minSize, base, best)
  {
    best := SearchFit(cuts, limit);
    ghost var base := best;
    if Groups(cuts[best], minSize) == {} {
      var i := |cuts| - 1;
      while i >= 0
        invariant -1 <= i < |cuts| && best == base
        invariant forall j :: i < j < |cuts| ==> |Groups(cuts[j], minSize)| < 2
      {
        if |Groups(cuts[i], minSize)| >= 2 {
          best := i;
          break;
        }
        i := i - 1;
      }
    }
    assert CutAt(cuts, limit, minSize, base, best);
  }

  // ----- names -----

  const NAME_TERMS: nat := 3
  const NO_TERMS: string := "zonder onderscheidende termen"

  /** A name is its terms; none of them is the name for "no distinguishing terms". A
      `Second` is the one with " (2)" behind it. */
  datatype Name = Terms(terms: seq<string>) | Second(of: seq<string>)

  function Remaining(scored: seq<string>, skip: set<string>): (r: seq<string>)
    ensures forall t :: t in r <==> t in scored && t !in skip
    ensures |r| <= |scored|
  {
    if scored == [] then []
    else (if scored[0] in skip then [] else [scored[0]]) + Remaining(scored[1..], skip)
  }

  /** The others keep their order. */
  lemma {:induction false} RemainingConcat(a: seq<string>, b: seq<string>, skip: set<string>)
    ensures Remaining(a + b, skip) == Remaining(a, skip) + Remaining(b, skip)
  {
    if a == [] {
      assert a + b == b && [] + Remaining(b, skip) == Remaining(b, skip);
    } else {
      assert (a + b)[1..] == a[1..] + b;
      RemainingConcat(a[1..], b, skip);
      Grouped(if a[0] in skip then [] else [a[0]], Remaining(a[1..], skip), Remaining(b, skip));
    }
  }

  lemma Grouped(a: seq<string>, b: seq<string>, c: seq<string>)
    ensures a + (b + c) == (a + b) + c
  {}

  /** `name_for`: the best terms that are not skipped. */
  function NameFor(scored: seq<string>, skip: set<string>): (r: seq<string>)
    ensures |r| <= NAME_TERMS && forall t :: t in r ==> t in scored && t !in skip
    ensures r == [] <==> forall t :: t in scored ==> t in skip
  {
    var rest := Remaining(scored, skip);
    assert rest != [] ==> rest[0] in rest;
    if |rest| <= NAME_TERMS then rest else rest[..NAME_TERMS]
  }

  /** The first three terms that are left, or all when there are fewer. */
  lemma NameIsFirstThree(scored: seq<string>, skip: set<string>)
    ensures NameFor(scored, skip) <= Remaining(scored, skip)
    ensures NameFor(scored, skip) == Remaining(scored, skip) || |NameFor(scored, skip)| == 3
  {}

  function LastTerm(name: seq<string>): string { if name == [] then NO_TERMS else name[|name| - 1] }

  /** The terms that are not skipped: what a name can still be made of. */
  ghost function Left(scored: seq<string>, skip: set<string>): set<string> { set t | t in scored && t !in skip }

  /** The names a group can get, best first: each gives up its last term for the next
      one; the last of them has no terms. */
  function Candidates(scored: seq<string>, skip: set<string>): (r: seq<seq<string>>)
    ensures r != [] && r[|r| - 1] == [] && forall c :: c in r ==> forall t :: t in c ==> t in scored
    decreases Left(scored, skip)
  {
    var name := NameFor(scored, skip);
    if name == [] then [name]
    else
      assert LastTerm(name) in name && LastTerm(name) in Left(scored, skip);
      [name] + Candidates(scored, skip + {LastTerm(name)})
  }

  /** The next candidate is without the term that came last in this one; a name without terms has
      none behind it. */
  lemma CandidatesShrink(scored: seq<string>, skip: set<string>)
    ensures var name := NameFor(scored, skip);
            Candidates(scored, skip)
            == [name] + if name == [] then [] else Candidates(scored, skip + {name[|name| - 1]})
  {
    assert [NameFor(scored, skip)] + [] == [NameFor(scored, skip)];
  }

  /** The first name that is not in use; behind them all, the " (2)". */
  function FirstFree(names: seq<seq<string>>, used: set<Name>): Name {
    if names == [] then Second([])
    else if Terms(names[0]) !in used then Terms(names[0])
    else FirstFree(names[1..], used)
  }

  lemma {:induction false} FreeOrSecond(names: seq<seq<string>>, used: set<Name>)
    ensures var r := FirstFree(names, used);
            && (r.Terms? ==> r !in used && r.terms in names)
            && (r.Second? ==> r.of == [])
            && (r.Second? <==> forall c :: c in names ==> Terms(c) in used)
  {
    if names != [] {
      FreeOrSecond(names[1..], used);
      assert forall c :: c in names <==> c == names[0] || c in names[1..];
    }
  }

  /** `_unique_name`: a colliding name gives up its last term for the next one. It ends
      because every round gives up a term, and only a name without terms can stay what
      it was: then, and only then, the " (2)" is used. */
  method UniqueName(scored: seq<string>, used: set<Name>) returns (r: Name)
    requires NO_TERMS !in scored
    ensures r == FirstFree(Candidates(scored, {}), used)
    ensures r.Terms? ==> r !in used && forall t :: t in r.terms ==> t in scored
    ensures r.Second? ==> r.of == [] && Terms([]) in used
  {
    FreeOrSecond(Candidates(scored, {}), used);
    var skip: set<string> := {};
    var name := NameFor(scored, skip);
    while Terms(name) in used
      invariant name == NameFor(scored, skip) && NO_TERMS !in skip
      invariant FirstFree(Candidates(scored, skip), used) == FirstFree(Candidates(scored, {}), used)
      decreases Left(scored, skip)
    {
      var last := LastTerm(name);
      assert name != [] ==> last in name;
      var candidate := NameFor(scored, skip + {last});
      if name == [] {
        SkipNothing(scored, skip, last);
        assert Candidates(scored, skip) == [[]];
      } else {
        assert Candidates(scored, skip)[1..] == Candidates(scored, skip + {last});
      }
      if candidate == name { return Second(name); }
      assert last in Left(scored, skip);
      skip := skip + {last};
      name := candidate;
    }
    r := Terms(name);
  }

  lemma {:induction false} SkipNothing(scored: seq<string>, skip: set<string>, t: string)
    requires t !in scored
    ensures Remaining(scored, skip + {t}) == Remaining(scored, skip)
  {
    if scored != [] { SkipNothing(scored[1..], skip, t); }
  }

  /** Yet the name handed out can be in use: exactly when every name the terms can make
      is taken and the " (2)" is too. A third group without terms is one such case. */
  lemma SecondRepeats(scored: seq<string>, used: set<Name>)
    ensures FirstFree(Candidates(scored, {}), used) in used
            <==> Second([]) in used && forall c :: c in Candidates(scored, {}) ==> Terms(c) in used
    ensures Candidates([], {}) == [[]]
  {
    FreeOrSecond(Candidates(scored, {}), used);
  }

  // ----- memberships -----

  /** An indexed document as it was read: its id and its topics. */
  datatype Doc = Doc(id: string, topics: set<string>)

  function NewTopics(topics: set<string>, retired: set<string>, given: Option<string>): set<string> {
    topics - retired + (if given.Some? then {given.value} else {})
  }

  function AssignedTo(given: map<string, string>, id: string): Option<string> {
    if id in given then Some(given[id]) else None
  }

  class TopicIndex {
    var topics: map<string, set<string>>

    constructor ()
      ensures topics == map[]
    {
      topics := map[];
    }

    /** `_write_membership`: each document of the dossier loses the retired topics and
        gains its new one; topics of other dossiers, and other documents, stay. */
    method WriteMembership(docs: seq<Doc>, given: map<string, string>, retired: set<string>)
      requires forall i, j :: 0 <= i < j < |docs| ==> docs[i].id != docs[j].id
      requires forall i :: 0 <= i < |docs| ==> docs[i].id in topics && topics[docs[i].id] == docs[i].topics
      modifies this
      ensures topics.Keys == old(topics).Keys
      ensures forall i :: 0 <= i < |docs| ==>
                topics[docs[i].id] == NewTopics(docs[i].topics, retired, AssignedTo(given, docs[i].id))
      ensures forall i, x :: 0 <= i < |docs| ==>
                (x in topics[docs[i].id] <==>
                 (x in docs[i].topics && x !in retired) || (docs[i].id in given && x == given[docs[i].id]))
      ensures forall id :: id in topics && (forall i :: 0 <= i < |docs| ==> docs[i].id != id) ==>
                topics[id] == old(topics)[id]
    {
      for i := 0 to |docs|
        invariant topics.Keys == old(topics).Keys
        invariant forall j :: 0 <= j < i ==>
                    topics[docs[j].id] == NewTopics(docs[j].topics, retired, AssignedTo(given, docs[j].id))
        invariant forall id :: id in topics && (forall j :: 0 <= j < i ==> docs[j].id != id) ==>
                    topics[id] == old(topics)[id]
      {
        var doc := docs[i];
        var keep := doc.topics - retired;
        if doc.id in given { keep := keep + {given[doc.id]}; }
        assert topics[doc.id] == doc.topics;
        if keep != doc.topics { topics := topics[doc.id := keep]; }
      }
    }
  }
}
