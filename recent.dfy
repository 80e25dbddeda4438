/** The sidebar's recent-search lists: the newest entry goes to the front,
    an earlier copy of it is dropped, and only the first five entries are kept. */
module Recent {

  /** How many entries a recent-search list keeps (`slice(0, 5)`). */
  const MaxRecent: nat := 5

  /** No entry occurs twice. */
  predicate NoDup<T(==)>(s: seq<T>)
  {
    forall i, j :: 0 <= i < j < |s| ==> s[i] != s[j]
  }

  /** What a recent-search list may look like: at most five entries, all distinct. */
  predicate IsHistory<T(==)>(s: seq<T>)
  {
    |s| <= MaxRecent && NoDup(s)
  }

  /** `s.filter(item => item !== x)`: s without any copy of x, in s's order. */
  function RemoveAll<T(==)>(s: seq<T>, x: T): (r: seq<T>)
    ensures |r| <= |s|
    ensures forall k :: 0 <= k < |r| ==> r[k] in s && r[k] != x
    ensures forall k :: 0 <= k < |s| && s[k] != x ==> s[k] in r
  {
    if s == [] then []
    else if s[0] == x then RemoveAll(s[1..], x)
    else [s[0]] + RemoveAll(s[1..], x)
  }

  /** `s.slice(0, n)`: the first n entries of s, or all of s when it is shorter. */
  function Take<T>(s: seq<T>, n: nat): (r: seq<T>)
    ensures |r| == if |s| <= n then |s| else n
    ensures forall k :: 0 <= k < |r| ==> r[k] == s[k]
  {
    if |s| <= n then s else s[..n]
  }

  /** `[item, ...prev.filter(x => x !== item)].slice(0, 5)`: record item as the
      newest entry. It is first, it occurs only there, the list holds at most
      five entries, and every other entry was already in prev. */
  function AddRecent<T(==)>(prev: seq<T>, item: T): (r: seq<T>)
    ensures 1 <= |r| <= MaxRecent && r[0] == item
    ensures forall k :: 1 <= k < |r| ==> r[k] != item
    ensures forall k :: 1 <= k < |r| ==> r[k] in prev
  {
    var rest := RemoveAll(prev, item);
    var r := Take([item] + rest, MaxRecent);
    assert forall k :: 1 <= k < |r| ==> r[k] == rest[k - 1] && rest[k - 1] in rest;
    r
  }

  lemma {:induction false} RemoveAllAppend<T>(a: seq<T>, b: seq<T>, x: T)
    ensures RemoveAll(a + b, x) == RemoveAll(a, x) + RemoveAll(b, x)
  {
    if a == [] {
      assert a + b == b;
    } else {
      assert (a + b)[1..] == a[1..] + b;
      RemoveAllAppend(a[1..], b, x);
    }
  }

  lemma {:induction false} RemoveAllAbsent<T>(s: seq<T>, x: T)
    requires x !in s
    ensures RemoveAll(s, x) == s
  {
    if s != [] {
      RemoveAllAbsent(s[1..], x);
    }
  }

  lemma {:induction false} RemoveAllNoDup<T>(s: seq<T>, x: T)
    requires NoDup(s)
    ensures NoDup(RemoveAll(s, x))
  {
    if s != [] {
      RemoveAllNoDup(s[1..], x);
      assert s[0] !in s[1..];
    }
  }

  /** In a duplicate-free list, removing x removes exactly the one entry holding
      it and keeps the others in order. */
  lemma RemoveAllAt<T>(s: seq<T>, x: T, k: nat)
    requires NoDup(s) && k < |s| && s[k] == x
    ensures RemoveAll(s, x) == s[..k] + s[k + 1..]
  {
    var before, after := s[..k], s[k + 1..];
    assert s == before + ([x] + after);
    RemoveAllAppend(before, [x] + after, x);
    assert ([x] + after)[1..] == after;
    assert x !in before by {
      forall i | 0 <= i < |before| ensures before[i] != x { assert before[i] == s[i]; }
    }
    assert x !in after by {
      forall i | 0 <= i < |after| ensures after[i] != x { assert after[i] == s[k + 1 + i]; }
    }
    RemoveAllAbsent(before, x);
    RemoveAllAbsent(after, x);
  }

  /** A duplicate-free list loses at most one entry to RemoveAll. */
  lemma RemoveAllLength<T>(s: seq<T>, x: T)
    requires NoDup(s)
    ensures |RemoveAll(s, x)| >= |s| - 1
  {
    if x in s {
      var k :| 0 <= k < |s| && s[k] == x;
      RemoveAllAt(s, x, k);
    } else {
      RemoveAllAbsent(s, x);
    }
  }

  lemma {:induction false} RemoveAllCommute<T>(s: seq<T>, x: T, y: T)
    ensures RemoveAll(RemoveAll(s, x), y) == RemoveAll(RemoveAll(s, y), x)
  {
    if s != [] {
      RemoveAllCommute(s[1..], x, y);
    }
  }

  /** Recording an entry keeps a list a valid history (at most five entries,
      no duplicates). */
  lemma AddRecentKeepsHistory<T>(prev: seq<T>, item: T)
    requires NoDup(prev)
    ensures IsHistory(AddRecent(prev, item))
  {
    var rest := RemoveAll(prev, item);
    RemoveAllNoDup(prev, item);
    var r := AddRecent(prev, item);
    forall i, j | 0 <= i < j < |r| ensures r[i] != r[j] {
      if 0 < i {
        assert r[i] == rest[i - 1] && r[j] == rest[j - 1];
      }
    }
  }

  /** Searching an entry already in a history moves it to the front and keeps
      every other entry, in order. */
  lemma AddRecentMovesToFront<T>(prev: seq<T>, item: T, k: nat)
    requires IsHistory(prev) && k < |prev| && prev[k] == item
    ensures AddRecent(prev, item) == [item] + prev[..k] + prev[k + 1..]
  {
    RemoveAllAt(prev, item, k);
  }

  /** Searching a new entry pushes it on the front; the oldest entry falls off
      when the list was full. */
  lemma AddRecentPushesFront<T>(prev: seq<T>, item: T)
    requires item !in prev
    ensures AddRecent(prev, item) == Take([item] + prev, MaxRecent)
  {
    RemoveAllAbsent(prev, item);
  }

  /** Searching the newest entry again leaves a history as it is. */
  lemma AddRecentNewestUnchanged<T>(prev: seq<T>, item: T)
    requires IsHistory(prev) && prev != [] && prev[0] == item
    ensures AddRecent(prev, item) == prev
  {
    AddRecentMovesToFront(prev, item, 0);
    assert prev == [item] + prev[1..];
  }

  /** Recording the same entry twice in a row is the same as recording it once. */
  lemma AddRecentIdempotent<T>(prev: seq<T>, item: T)
    ensures AddRecent(AddRecent(prev, item), item) == AddRecent(prev, item)
  {
    var r := AddRecent(prev, item);
    assert r == [item] + r[1..];
    RemoveAllAppend([item], r[1..], item);
    RemoveAllAbsent(r[1..], item);
  }

  /** Truncating a history before recording an entry makes no difference to
      the result: the fifth entry and later ones never reach the new list. */
  lemma AddRecentTruncated<T>(d: seq<T>, item: T)
    requires NoDup(d)
    ensures AddRecent(Take(d, MaxRecent), item) == AddRecent(d, item)
  {
    if |d| > MaxRecent {
      var a, b := d[..MaxRecent], d[MaxRecent..];
      assert d == a + b;
      RemoveAllAppend(a, b, item);
      assert NoDup(a);
      RemoveAllLength(a, item);
    }
  }

  /** The entries of s, newest (last) first. */
  function Reverse<T>(s: seq<T>): (r: seq<T>)
    ensures |r| == |s|
    ensures forall k :: 0 <= k < |s| ==> r[k] == s[|s| - 1 - k]
  {
    if s == [] then [] else [s[|s| - 1]] + Reverse(s[..|s| - 1])
  }

  /** The first copy of each entry of s, in order. */
  function Dedup<T(==)>(s: seq<T>): (r: seq<T>)
    ensures NoDup(r)
    ensures forall k :: 0 <= k < |r| ==> r[k] in s
    ensures forall k :: 0 <= k < |s| ==> s[k] in r
    decreases |s|
  {
    if s == [] then []
    else
      var rest := Dedup(RemoveAll(s[1..], s[0]));
      assert s == [s[0]] + s[1..];
      [s[0]] + rest
  }

  lemma {:induction false} DedupRemoveAll<T>(s: seq<T>, x: T)
    ensures Dedup(RemoveAll(s, x)) == RemoveAll(Dedup(s), x)
    decreases |s|
  {
    if s != [] {
      var a, t := s[0], s[1..];
      if a == x {
        RemoveAllAbsent(Dedup(RemoveAll(t, x)), x);
      } else {
        DedupRemoveAll(RemoveAll(t, a), x);
        RemoveAllCommute(t, x, a);
      }
    }
  }

  /** The list a sequence of searches leaves behind, starting from the empty
      list the component starts with. The latest search is always at the
      front, and the list never holds more than five entries. */
  function Replay<T(==)>(searches: seq<T>): (r: seq<T>)
    ensures |r| <= MaxRecent && |r| <= |searches|
    ensures searches != [] ==> |r| >= 1 && r[0] == searches[|searches| - 1]
  {
    if searches == [] then []
    else AddRecent(Replay(searches[..|searches| - 1]), searches[|searches| - 1])
  }

  /** Starting empty, a recent-search list is always a valid history. */
  lemma {:induction false} ReplayIsHistory<T>(searches: seq<T>)
    ensures IsHistory(Replay(searches))
  {
    if searches != [] {
      ReplayIsHistory(searches[..|searches| - 1]);
      AddRecentKeepsHistory(Replay(searches[..|searches| - 1]), searches[|searches| - 1]);
    }
  }

  /** A recent-search list holds exactly the five most recently searched
      distinct entries, newest first. */
  lemma {:induction false} ReplayIsMostRecentDistinct<T>(searches: seq<T>)
    ensures Replay(searches) == Take(Dedup(Reverse(searches)), MaxRecent)
  {
    if searches != [] {
      var p, x := searches[..|searches| - 1], searches[|searches| - 1];
      ReplayIsMostRecentDistinct(p);
      var d := Dedup(Reverse(p));
      AddRecentTruncated(d, x);
      assert Reverse(searches) == [x] + Reverse(p);
      assert RemoveAll(Reverse(searches)[1..], x) == RemoveAll(Reverse(p), x);
      DedupRemoveAll(Reverse(p), x);
    }
  }
}
