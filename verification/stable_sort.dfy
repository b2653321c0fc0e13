/**
 The library sort behind `sort.SliceStable`: its result is pinned down by what
 a stable sort promises, so any algorithm that keeps the promise gives this list.
 */
module StableSort {

  /** `less` behaves as a strict weak order on the elements of `s`. */
  ghost predicate StrictWeakOrder<T(!new)>(less: (T, T) -> bool, s: seq<T>) {
    && (forall x, y | x in s && y in s && less(x, y) :: !less(y, x))
    && (forall x, y, z | x in s && y in s && z in s && !less(x, y) && !less(y, z) :: !less(x, z))
  }

  ghost predicate Sorted<T>(less: (T, T) -> bool, s: seq<T>) {
    forall i, j | 0 <= i < j < |s| :: !less(s[j], s[i])
  }

  /** The elements of `s` that `less` does not separate from `x`, in their order in `s`. */
  function Ties<T>(less: (T, T) -> bool, x: T, s: seq<T>): seq<T> {
    if s == [] then []
    else (if !less(x, s[0]) && !less(s[0], x) then [s[0]] else []) + Ties(less, x, s[1..])
  }

  /** `r` is `s` stably sorted. */
  ghost predicate IsStableSort<T>(less: (T, T) -> bool, s: seq<T>, r: seq<T>) {
    && Sorted(less, r)
    && multiset(r) == multiset(s)
    && forall x | x in s :: Ties(less, x, r) == Ties(less, x, s)
  }

  function Insert<T>(less: (T, T) -> bool, x: T, s: seq<T>): seq<T> {
    if s == [] || !less(s[0], x) then [x] + s
    else [s[0]] + Insert(less, x, s[1..])
  }

  function Sort<T>(less: (T, T) -> bool, s: seq<T>): seq<T> {
    if s == [] then [] else Insert(less, s[0], Sort(less, s[1..]))
  }

  lemma {:induction false} InsertKeepsElements<T>(less: (T, T) -> bool, x: T, s: seq<T>)
    ensures multiset(Insert(less, x, s)) == multiset{x} + multiset(s)
  {
    if s != [] && less(s[0], x) {
      InsertKeepsElements(less, x, s[1..]);
      assert s == [s[0]] + s[1..];
    }
  }

  lemma {:induction false} SortKeepsElements<T>(less: (T, T) -> bool, s: seq<T>)
    ensures multiset(Sort(less, s)) == multiset(s)
    ensures |Sort(less, s)| == |s|
    ensures forall x :: x in Sort(less, s) <==> x in s
  {
    if s != [] {
      SortKeepsElements(less, s[1..]);
      InsertKeepsElements(less, s[0], Sort(less, s[1..]));
      assert s == [s[0]] + s[1..];
    }
    SameElements(Sort(less, s), s);
  }

  lemma SameElements<T>(a: seq<T>, b: seq<T>)
    requires multiset(a) == multiset(b)
    ensures |a| == |b| && forall x :: x in a <==> x in b
  {
    assert |multiset(a)| == |a| && |multiset(b)| == |b|;
    forall x ensures x in a <==> x in b {
      assert x in a <==> x in multiset(a);
      assert x in b <==> x in multiset(b);
    }
  }

  lemma {:induction false} InsertKeepsSorted<T(!new)>(less: (T, T) -> bool, x: T, s: seq<T>, dom: seq<T>)
    requires StrictWeakOrder(less, dom)
    requires x in dom && (forall y | y in s :: y in dom)
    requires Sorted(less, s)
    ensures Sorted(less, Insert(less, x, s))
  {
    if s != [] && less(s[0], x) {
      InsertKeepsSorted(less, x, s[1..], dom);
      InsertKeepsElements(less, x, s[1..]);
      var t := Insert(less, x, s[1..]);
      forall j | 0 <= j < |t| ensures !less(t[j], s[0]) {
        assert t[j] in multiset(t);
        if t[j] != x {
          assert t[j] in s[1..];
        }
      }
    } else if s != [] {
      forall j | 0 <= j < |s| ensures !less(s[j], x) {
        assert s[0] in s && s[j] in s;
        assert j > 0 ==> !less(s[j], s[0]);
      }
    }
  }

  lemma {:induction false} InsertKeepsTies<T(!new)>(less: (T, T) -> bool, w: T, x: T, s: seq<T>, dom: seq<T>)
    requires StrictWeakOrder(less, dom)
    requires w in dom && x in dom && (forall y | y in s :: y in dom)
    ensures Ties(less, w, Insert(less, x, s)) == Ties(less, w, [x] + s)
  {
    assert ([x] + s)[1..] == s;
    if s != [] && less(s[0], x) {
      InsertKeepsTies(less, w, x, s[1..], dom);
      assert ([x] + s[1..])[1..] == s[1..];
      assert s[0] in s;
      var i := [s[0]] + Insert(less, x, s[1..]);
      assert i[0] == s[0] && i[1..] == Insert(less, x, s[1..]);
      // x and s[0] are ordered, so they cannot both tie with w
      assert !(!less(w, s[0]) && !less(s[0], w) && !less(w, x) && !less(x, w));
    }
  }

  /** The model's sort keeps the promise of a stable sort. */
  lemma {:induction false} SortIsStable<T(!new)>(less: (T, T) -> bool, s: seq<T>, dom: seq<T>)
    requires StrictWeakOrder(less, dom)
    requires forall y | y in s :: y in dom
    ensures IsStableSort(less, s, Sort(less, s))
    ensures forall x | x in dom :: Ties(less, x, Sort(less, s)) == Ties(less, x, s)
  {
    SortKeepsElements(less, s);
    if s != [] {
      SortIsStable(less, s[1..], dom);
      SortKeepsElements(less, s[1..]);
      InsertKeepsSorted(less, s[0], Sort(less, s[1..]), dom);
      forall w | w in dom ensures Ties(less, w, Sort(less, s)) == Ties(less, w, s) {
        InsertKeepsTies(less, w, s[0], Sort(less, s[1..]), dom);
        assert ([s[0]] + Sort(less, s[1..]))[1..] == Sort(less, s[1..]);
      }
    }
  }

  /** The first element of a sorted list is below nothing in it. */
  lemma HeadIsMinimal<T>(less: (T, T) -> bool, a: seq<T>, x: T)
    requires Sorted(less, a) && a != []
    requires x in multiset(a) && !less(a[0], a[0])
    ensures !less(x, a[0])
  {
    assert x in a;
    var k :| 0 <= k < |a| && a[k] == x;
    assert k > 0 ==> !less(a[k], a[0]);
  }

  lemma HeadOfTies<T>(less: (T, T) -> bool, x: T, a: seq<T>)
    requires a != []
    ensures !less(x, a[0]) && !less(a[0], x) ==> Ties(less, x, a) == [a[0]] + Ties(less, x, a[1..])
    ensures less(x, a[0]) || less(a[0], x) ==> Ties(less, x, a) == Ties(less, x, a[1..])
  {}

  /** Two stable sorts of one list are the same list: the promise leaves no freedom. */
  lemma {:induction false} StableSortIsUnique<T(!new)>(less: (T, T) -> bool, a: seq<T>, b: seq<T>, dom: seq<T>)
    requires StrictWeakOrder(less, dom)
    requires forall y | y in a :: y in dom
    requires Sorted(less, a) && Sorted(less, b)
    requires multiset(a) == multiset(b)
    requires forall x | x in dom :: Ties(less, x, a) == Ties(less, x, b)
    ensures a == b
  {
    assert |multiset(a)| == |a| && |multiset(b)| == |b|;
    if a != [] {
      SameHead(less, a, b, dom);
      forall x | x in dom ensures Ties(less, x, a[1..]) == Ties(less, x, b[1..]) { SameTailTies(less, x, a, b); }
      TailElements(a);
      TailElements(b);
      StableSortIsUnique(less, a[1..], b[1..], dom);
      ConsTail(a);
      ConsTail(b);
    }
  }

  lemma SameTailTies<T>(less: (T, T) -> bool, x: T, a: seq<T>, b: seq<T>)
    requires a != [] && b != [] && a[0] == b[0] && Ties(less, x, a) == Ties(less, x, b)
    ensures Ties(less, x, a[1..]) == Ties(less, x, b[1..])
  {
    HeadOfTies(less, x, a);
    HeadOfTies(less, x, b);
    var ta, tb := Ties(less, x, a[1..]), Ties(less, x, b[1..]);
    assert ([a[0]] + ta)[1..] == ta && ([b[0]] + tb)[1..] == tb;
  }

  lemma ConsTail<T>(a: seq<T>)
    requires a != []
    ensures a == [a[0]] + a[1..]
  {}

  lemma TailElements<T>(a: seq<T>)
    requires a != []
    ensures multiset(a[1..]) == multiset(a) - multiset{a[0]}
    ensures forall y | y in a[1..] :: y in a
  {
    ConsTail(a);
  }

  lemma SameHead<T(!new)>(less: (T, T) -> bool, a: seq<T>, b: seq<T>, dom: seq<T>)
    requires StrictWeakOrder(less, dom)
    requires forall y | y in a :: y in dom
    requires Sorted(less, a) && Sorted(less, b)
    requires multiset(a) == multiset(b) && a != [] && b != []
    requires forall x | x in dom :: Ties(less, x, a) == Ties(less, x, b)
    ensures a[0] == b[0]
  {
    assert a[0] in multiset(a) && b[0] in multiset(b);
    assert b[0] in a;
    HeadIsMinimal(less, a, b[0]);
    HeadIsMinimal(less, b, a[0]);
    FirstTie(less, a);
    FirstOfTies(less, a[0], b);
  }

  /** A list's head is the first of its own ties. */
  lemma FirstTie<T>(less: (T, T) -> bool, a: seq<T>)
    requires a != [] && !less(a[0], a[0])
    ensures Ties(less, a[0], a) != [] && Ties(less, a[0], a)[0] == a[0]
  {
    HeadOfTies(less, a[0], a);
  }

  lemma FirstOfTies<T>(less: (T, T) -> bool, x: T, b: seq<T>)
    requires b != [] && !less(x, b[0]) && !less(b[0], x)
    ensures Ties(less, x, b) != [] && Ties(less, x, b)[0] == b[0]
  {
    HeadOfTies(less, x, b);
  }

  // ---- where each element came from ----

  /** `x` at position `i` goes before `y` at position `j`: it is less, or ties and stood first. */
  predicate GoesBefore<T>(less: (T, T) -> bool, s: seq<T>, i: nat, j: nat)
    requires i < |s| && j < |s|
  {
    less(s[i], s[j]) || (!less(s[j], s[i]) && i < j)
  }

  /** `places` are positions of `s`, each once, in the order of a stable sort. */
  ghost predicate InOrder<T>(less: (T, T) -> bool, s: seq<T>, places: seq<nat>) {
    && (forall k | 0 <= k < |places| :: places[k] < |s|)
    && forall j, k | 0 <= j < k < |places| :: places[j] != places[k] && GoesBefore(less, s, places[j], places[k])
  }

  lemma SplitOfTail<T>(s: seq<T>, x: T, n: nat)
    requires s != [] && n < |s|
    ensures [s[0]] + (s[1..][..n] + [x] + s[1..][n..]) == s[..n + 1] + [x] + s[n + 1..]
  {}

  /** Where `Insert` puts its element. */
  lemma {:induction false} InsertSplits<T>(less: (T, T) -> bool, x: T, s: seq<T>) returns (k: nat)
    ensures k <= |s| && Insert(less, x, s) == s[..k] + [x] + s[k..]
    ensures forall j | 0 <= j < k :: less(s[j], x)
    ensures k < |s| ==> !less(s[k], x)
  {
    k := 0;
    if s != [] && less(s[0], x) {
      var n := InsertSplits(less, x, s[1..]);
      k := n + 1;
      SplitOfTail(s, x, n);
      forall j | 0 <= j < k ensures less(s[j], x) {
        if j > 0 { assert s[1..][j - 1] == s[j]; }
      }
    }
  }

  lemma OrderOfTail<T(!new)>(less: (T, T) -> bool, s: seq<T>)
    requires StrictWeakOrder(less, s) && s != []
    ensures StrictWeakOrder(less, s[1..])
  {
    TailElements(s);
  }

  /** The sorted list, position by position: every element of `s` from its own place, in the order of a stable sort. */
  lemma {:induction false} SortPlaces<T(!new)>(less: (T, T) -> bool, s: seq<T>) returns (places: seq<nat>)
    requires StrictWeakOrder(less, s)
    ensures |places| == |s| == |Sort(less, s)|
    ensures forall k | 0 <= k < |places| :: places[k] < |s| && Sort(less, s)[k] == s[places[k]]
    ensures InOrder(less, s, places)
    ensures forall i: nat {:trigger i in places} | i < |s| :: i in places
  {
    places := [];
    if s != [] {
      OrderOfTail(less, s);
      var t := Sort(less, s[1..]);
      var rest := SortPlaces(less, s[1..]);
      var k := InsertSplits(less, s[0], t);
      var later := seq(|rest|, i requires 0 <= i < |rest| => rest[i] + 1);
      places := later[..k] + [0] + later[k..];
      PlacesAreInOrder(less, s, t, rest, later, k);
      PlacesMatch(s, t, later, k, Sort(less, s));
      PlacesCover(rest, later, k);
    }
  }

  lemma PlacesCover(rest: seq<nat>, later: seq<nat>, k: nat)
    requires |rest| == |later| && k <= |later| && forall i | 0 <= i < |rest| :: later[i] == rest[i] + 1
    requires forall i: nat {:trigger i in rest} | i < |rest| :: i in rest
    ensures forall i: nat | i <= |rest| :: i in later[..k] + [0] + later[k..]
  {
    var places := later[..k] + [0] + later[k..];
    forall i: nat | i <= |rest| ensures i in places {
      if i == 0 {
        assert places[k] == 0;
      } else {
        var before: nat := i - 1;
        assert before in rest;
        var n :| 0 <= n < |rest| && rest[n] == before;
        assert later[n] == i && places[if n < k then n else n + 1] == later[n];
      }
    }
  }

  lemma PlacesMatch<T>(s: seq<T>, t: seq<T>, later: seq<nat>, k: nat, sorted: seq<T>)
    requires s != [] && |t| == |later| && k <= |t| && sorted == t[..k] + [s[0]] + t[k..]
    requires forall i | 0 <= i < |t| :: later[i] < |s| && t[i] == s[later[i]]
    ensures var places := later[..k] + [0] + later[k..];
            |places| == |sorted| && forall i | 0 <= i < |places| :: places[i] < |s| && sorted[i] == s[places[i]]
  {}

  /** The first element's place put among the others: in order, if it is with its neighbours. */
  lemma PutInOrder<T>(less: (T, T) -> bool, s: seq<T>, later: seq<nat>, k: nat)
    requires s != [] && InOrder(less, s, later) && k <= |later|
    requires forall i | 0 <= i < |later| :: later[i] > 0
    requires forall i | 0 <= i < k :: GoesBefore(less, s, later[i], 0)
    requires forall i | k <= i < |later| :: GoesBefore(less, s, 0, later[i])
    ensures InOrder(less, s, later[..k] + [0] + later[k..])
  {
    var places := later[..k] + [0] + later[k..];
    forall i, j | 0 <= i < j < |places| ensures places[i] != places[j] && GoesBefore(less, s, places[i], places[j]) {
      if i == k {
        assert places[j] == later[j - 1];
      } else if j == k {
        assert places[i] == later[i];
      } else {
        var a, b := if i < k then i else i - 1, if j < k then j else j - 1;
        assert places[i] == later[a] && places[j] == later[b] && GoesBefore(less, s, later[a], later[b]);
      }
    }
  }

  lemma PlacesAreInOrder<T(!new)>(less: (T, T) -> bool, s: seq<T>, t: seq<T>, rest: seq<nat>, later: seq<nat>, k: nat)
    requires StrictWeakOrder(less, s) && s != [] && InOrder(less, s[1..], rest) && k <= |rest| == |later| == |t|
    requires forall i | 0 <= i < |rest| :: rest[i] < |s[1..]| && later[i] == rest[i] + 1 && t[i] == s[1..][rest[i]]
    requires forall j | 0 <= j < k :: less(t[j], s[0])
    requires k < |t| ==> !less(t[k], s[0])
    ensures InOrder(less, s, later[..k] + [0] + later[k..])
  {
    LaterInOrder(less, s, rest, later);
    AroundFirst(less, s, t, rest, later, k);
    PutInOrder(less, s, later, k);
  }

  lemma LaterInOrder<T>(less: (T, T) -> bool, s: seq<T>, rest: seq<nat>, later: seq<nat>)
    requires s != [] && InOrder(less, s[1..], rest) && |rest| == |later|
    requires forall i | 0 <= i < |rest| :: later[i] == rest[i] + 1
    ensures InOrder(less, s, later)
  {
    forall i, j | 0 <= i < j < |later| ensures later[i] != later[j] && GoesBefore(less, s, later[i], later[j]) {
      assert GoesBefore(less, s[1..], rest[i], rest[j]);
    }
  }

  /** The first element, put where `Insert` puts it: those before it are less, those after it are not. */
  lemma AroundFirst<T(!new)>(less: (T, T) -> bool, s: seq<T>, t: seq<T>, rest: seq<nat>, later: seq<nat>, k: nat)
    requires StrictWeakOrder(less, s) && s != [] && InOrder(less, s[1..], rest) && k <= |rest| == |later| == |t|
    requires forall i | 0 <= i < |rest| :: rest[i] < |s[1..]| && later[i] == rest[i] + 1 && t[i] == s[1..][rest[i]]
    requires forall j | 0 <= j < k :: less(t[j], s[0])
    requires k < |t| ==> !less(t[k], s[0])
    ensures forall i | 0 <= i < k :: GoesBefore(less, s, later[i], 0)
    ensures forall i | k <= i < |later| :: later[i] > 0 && GoesBefore(less, s, 0, later[i])
  {
    forall i | 0 <= i < |later| ensures s[later[i]] == t[i] && t[i] in s {}
    forall i | k <= i < |later| ensures GoesBefore(less, s, 0, later[i]) {
      if i > k {
        assert GoesBefore(less, s[1..], rest[k], rest[i]);
        assert !less(t[i], t[k]);
      }
    }
  }
}
