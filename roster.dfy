/** Names in first-seen order without repeats: the order in which a
    JavaScript object or Set keeps keys that are inserted one by one. */
module Roster {

  predicate NoDuplicates(s: seq<string>) {
    forall i, j :: 0 <= i < j < |s| ==> s[i] != s[j]
  }

  /** `set.add(x)` / first assignment of a new key: appended only if new. */
  function Insert(d: seq<string>, x: string): seq<string> {
    if x in d then d else d + [x]
  }

  /** Insert every element of xs, left to right. */
  function InsertAll(d: seq<string>, xs: seq<string>): seq<string>
    decreases |xs|
  {
    if xs == [] then d else Insert(InsertAll(d, xs[..|xs| - 1]), xs[|xs| - 1])
  }

  /** The distinct elements of xs in the order they first occur. */
  function Dedup(xs: seq<string>): seq<string> {
    InsertAll([], xs)
  }

  /** Position of the first occurrence of x in xs. */
  function FirstIndex(xs: seq<string>, x: string): (i: nat)
    requires x in xs
    ensures i < |xs| && xs[i] == x
    ensures forall k :: 0 <= k < i ==> xs[k] != x
  {
    if xs[0] == x then 0 else 1 + FirstIndex(xs[1..], x)
  }

  /** Inserting a sequence in two pieces is inserting it at once. */
  lemma {:induction false} InsertAllAppend(d: seq<string>, xs: seq<string>, ys: seq<string>)
    ensures InsertAll(d, xs + ys) == InsertAll(InsertAll(d, xs), ys)
    decreases |ys|
  {
    if ys == [] {
      assert xs + ys == xs;
    } else {
      var zs := xs + ys;
      assert zs[..|zs| - 1] == xs + ys[..|ys| - 1];
      assert zs[|zs| - 1] == ys[|ys| - 1];
      InsertAllAppend(d, xs, ys[..|ys| - 1]);
    }
  }

  /** Inserting keeps what was there, adds exactly the inserted elements,
      and never repeats one. */
  lemma {:induction false} InsertAllContents(d: seq<string>, xs: seq<string>)
    requires NoDuplicates(d)
    ensures NoDuplicates(InsertAll(d, xs))
    ensures |d| <= |InsertAll(d, xs)| && InsertAll(d, xs)[..|d|] == d
    ensures forall x :: x in InsertAll(d, xs) <==> x in d || x in xs
    decreases |xs|
  {
    if xs != [] {
      var init := xs[..|xs| - 1];
      InsertAllContents(d, init);
      assert xs == init + [xs[|xs| - 1]];
      var r := InsertAll(d, init);
      assert (r + [xs[|xs| - 1]])[..|d|] == r[..|d|];
    }
  }

  lemma FirstIndexExtend(xs: seq<string>, y: string, x: string)
    requires x in xs
    ensures x in xs + [y] && FirstIndex(xs + [y], x) == FirstIndex(xs, x)
  {
    var i, j := FirstIndex(xs, x), FirstIndex(xs + [y], x);
    assert (xs + [y])[i] == x;
  }

  /** Dedup keeps the elements in the order of their first occurrence. */
  lemma {:induction false} DedupOrdered(xs: seq<string>)
    ensures forall i, j :: 0 <= i < j < |Dedup(xs)| ==>
              Dedup(xs)[i] in xs && Dedup(xs)[j] in xs &&
              FirstIndex(xs, Dedup(xs)[i]) < FirstIndex(xs, Dedup(xs)[j])
    decreases |xs|
  {
    if xs != [] {
      var init, y := xs[..|xs| - 1], xs[|xs| - 1];
      DedupOrdered(init);
      InsertAllContents([], init);
      var d := Dedup(init);
      assert xs == init + [y];
      assert Dedup(xs) == Insert(d, y);
      forall i, j | 0 <= i < j < |Dedup(xs)|
        ensures Dedup(xs)[i] in xs && Dedup(xs)[j] in xs
        ensures FirstIndex(xs, Dedup(xs)[i]) < FirstIndex(xs, Dedup(xs)[j])
      {
        assert Dedup(xs)[i] == d[i] && d[i] in init;
        FirstIndexExtend(init, y, d[i]);
        if j < |d| {
          assert Dedup(xs)[j] == d[j] && d[j] in init;
          FirstIndexExtend(init, y, d[j]);
        } else {
          assert Dedup(xs)[j] == y && y !in init;
          assert FirstIndex(xs, y) == |init|;
        }
      }
    } else {
      assert Dedup(xs) == [];
    }
  }

  /** Dedup lists every distinct element of xs once, ordered by where each
      first occurs. */
  lemma DedupFirstSeen(xs: seq<string>)
    ensures NoDuplicates(Dedup(xs))
    ensures forall x :: x in Dedup(xs) <==> x in xs
    ensures forall i, j :: 0 <= i < j < |Dedup(xs)| ==>
              Dedup(xs)[i] in xs && Dedup(xs)[j] in xs &&
              FirstIndex(xs, Dedup(xs)[i]) < FirstIndex(xs, Dedup(xs)[j])
  {
    InsertAllContents([], xs);
    DedupOrdered(xs);
  }
}
