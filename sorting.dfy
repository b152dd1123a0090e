/**
 * Ordering the stored entries by height, weight or bmi, ascending or
 * descending. The ordering is stable: entries with equal keys keep the
 * order in which the document lists them.
 */
module Sorting {
  import opened Records

  datatype SortField = ByHeight | ByWeight | ByBmi

  datatype Direction = Asc | Desc

  /** The three keys the sort accepts. */
  function ParseSortField(s: string): (r: Option<SortField>)
    ensures r.Some? <==> s == "height" || s == "weight" || s == "bmi"
    ensures r == Some(ByHeight) <==> s == "height"
    ensures r == Some(ByWeight) <==> s == "weight"
    ensures r == Some(ByBmi) <==> s == "bmi"
  {
    if s == "height" then Some(ByHeight)
    else if s == "weight" then Some(ByWeight)
    else if s == "bmi" then Some(ByBmi)
    else None
  }

  /** The two directions the sort accepts. */
  function ParseDirection(s: string): (r: Option<Direction>)
    ensures r.Some? <==> s == "asc" || s == "desc"
    ensures r == Some(Desc) <==> s == "desc"
  {
    if s == "asc" then Some(Asc)
    else if s == "desc" then Some(Desc)
    else None
  }

  /**
   * The sort key of an entry: the stored value under the key, 0 when the
   * entry has no such key. For bmi this is the stored bmi, not one
   * recomputed from height and weight.
   */
  function Key(e: Entry, f: SortField): (k: real)
    ensures f == ByHeight ==> k == (if e.height.Some? then e.height.value else 0.0)
    ensures f == ByWeight ==> k == (if e.weight.Some? then e.weight.value else 0.0)
    ensures f == ByBmi ==> k == (if e.bmi.Some? then e.bmi.value else 0.0)
    ensures f == ByBmi && Consistent(e) ==> k == BmiOf(e.height.value, e.weight.value)
  {
    match f
    case ByHeight => e.height.GetOr(0.0)
    case ByWeight => e.weight.GetOr(0.0)
    case ByBmi => e.bmi.GetOr(0.0)
  }

  /** `a` may come before `b`. */
  predicate InOrder(a: Entry, b: Entry, f: SortField, dir: Direction) {
    if dir == Asc then Key(a, f) <= Key(b, f) else Key(a, f) >= Key(b, f)
  }

  /** Nondecreasing by key for Asc, nonincreasing for Desc. */
  ghost predicate Ordered(s: seq<Entry>, f: SortField, dir: Direction) {
    forall i, j :: 0 <= i < j < |s| ==> InOrder(s[i], s[j], f, dir)
  }

  /** The entries of `s` whose key is `k`, in the order of `s`. */
  function WithKey(s: seq<Entry>, f: SortField, k: real): seq<Entry> {
    if s == [] then []
    else (if Key(s[0], f) == k then [s[0]] else []) + WithKey(s[1..], f, k)
  }

  /**
   * `r` is `s` sorted stably: a permutation of `s`, ordered by key in the
   * given direction, in which the entries sharing any key appear in the
   * same order as in `s`.
   */
  ghost predicate StableSortOf(r: seq<Entry>, s: seq<Entry>, f: SortField, dir: Direction) {
    && multiset(r) == multiset(s)
    && Ordered(r, f, dir)
    && forall k :: WithKey(r, f, k) == WithKey(s, f, k)
  }

  /** Puts `x` after every entry that may come before it. */
  function Insert(x: Entry, s: seq<Entry>, f: SortField, dir: Direction): seq<Entry> {
    if s == [] then [x]
    else if !InOrder(s[0], x, f, dir) then [x] + s
    else [s[0]] + Insert(x, s[1..], f, dir)
  }

  lemma {:induction false} InsertPermutes(x: Entry, s: seq<Entry>, f: SortField, dir: Direction)
    ensures multiset(Insert(x, s, f, dir)) == multiset(s) + multiset{x}
  {
    if s != [] && InOrder(s[0], x, f, dir) {
      InsertPermutes(x, s[1..], f, dir);
      assert s == [s[0]] + s[1..];
    }
  }

  lemma {:induction false} InsertOrdered(x: Entry, s: seq<Entry>, f: SortField, dir: Direction)
    requires Ordered(s, f, dir)
    ensures Ordered(Insert(x, s, f, dir), f, dir)
  {
    if s == [] {
    } else if !InOrder(s[0], x, f, dir) {
      var r := [x] + s;
      forall i, j | 0 <= i < j < |r| ensures InOrder(r[i], r[j], f, dir) {
        if i > 0 {
          assert r[i] == s[i - 1] && r[j] == s[j - 1];
        } else {
          assert InOrder(s[0], s[j - 1], f, dir) || j == 1;
        }
      }
    } else {
      var t := Insert(x, s[1..], f, dir);
      InsertOrdered(x, s[1..], f, dir);
      InsertPermutes(x, s[1..], f, dir);
      var r := [s[0]] + t;
      forall i, j | 0 <= i < j < |r| ensures InOrder(r[i], r[j], f, dir) {
        if i == 0 {
          assert r[j] in multiset(t);
          assert r[j] in multiset(s[1..]) || r[j] == x;
          if r[j] != x {
            var m :| 0 <= m < |s[1..]| && s[1..][m] == r[j];
            assert InOrder(s[0], s[m + 1], f, dir);
          }
        } else {
          assert r[i] == t[i - 1] && r[j] == t[j - 1];
        }
      }
    }
  }

  lemma {:induction false} NoneWithKey(s: seq<Entry>, f: SortField, k: real)
    requires forall i :: 0 <= i < |s| ==> Key(s[i], f) != k
    ensures WithKey(s, f, k) == []
  {
    if s != [] {
      NoneWithKey(s[1..], f, k);
    }
  }

  lemma OrderedTail(s: seq<Entry>, f: SortField, dir: Direction)
    requires s != [] && Ordered(s, f, dir)
    ensures Ordered(s[1..], f, dir)
  {
    forall i, j | 0 <= i < j < |s[1..]| ensures InOrder(s[1..][i], s[1..][j], f, dir) {
      assert s[1..][i] == s[i + 1] && s[1..][j] == s[j + 1];
    }
  }

  lemma WithKeyCons(a: Entry, t: seq<Entry>, f: SortField, k: real)
    ensures WithKey([a] + t, f, k) == (if Key(a, f) == k then [a] else []) + WithKey(t, f, k)
  {
    assert ([a] + t)[1..] == t;
  }

  /** When `x` goes in front, no entry after it shares its key. */
  lemma InsertFrontStable(x: Entry, s: seq<Entry>, f: SortField, dir: Direction, k: real)
    requires s != [] && Ordered(s, f, dir) && !InOrder(s[0], x, f, dir)
    ensures WithKey([x] + s, f, k) == WithKey(s, f, k) + (if Key(x, f) == k then [x] else [])
  {
    WithKeyCons(x, s, f, k);
    if Key(x, f) == k {
      forall i | 0 <= i < |s| ensures Key(s[i], f) != k {
        assert i == 0 || InOrder(s[0], s[i], f, dir);
      }
      NoneWithKey(s, f, k);
    }
  }

  /** Inserting `x` adds it at the end of the entries that share its key. */
  lemma {:induction false} InsertStable(x: Entry, s: seq<Entry>, f: SortField, dir: Direction, k: real)
    requires Ordered(s, f, dir)
    ensures WithKey(Insert(x, s, f, dir), f, k) == WithKey(s, f, k) + (if Key(x, f) == k then [x] else [])
  {
    if s == [] {
      WithKeyCons(x, [], f, k);
      assert [x] + [] == [x];
    } else if !InOrder(s[0], x, f, dir) {
      InsertFrontStable(x, s, f, dir, k);
    } else {
      OrderedTail(s, f, dir);
      InsertStable(x, s[1..], f, dir, k);
      WithKeyCons(s[0], Insert(x, s[1..], f, dir), f, k);
      WithKeyCons(s[0], s[1..], f, k);
      assert [s[0]] + s[1..] == s;
    }
  }

  lemma {:induction false} WithKeyAppend(s: seq<Entry>, x: Entry, f: SortField, k: real)
    ensures WithKey(s + [x], f, k) == WithKey(s, f, k) + (if Key(x, f) == k then [x] else [])
  {
    if s == [] {
      WithKeyCons(x, [], f, k);
      assert [x] + [] == [x];
    } else {
      WithKeyAppend(s[1..], x, f, k);
      WithKeyCons(s[0], s[1..] + [x], f, k);
      WithKeyCons(s[0], s[1..], f, k);
      assert [s[0]] + (s[1..] + [x]) == s + [x];
      assert [s[0]] + s[1..] == s;
    }
  }

  /** A stable sort by key, written as an insertion sort; Desc keeps ties in input order as Asc does. */
  function SortBy(s: seq<Entry>, f: SortField, dir: Direction): (r: seq<Entry>)
    ensures StableSortOf(r, s, f, dir)
  {
    if s == [] then []
    else
      var init, x := s[..|s| - 1], s[|s| - 1];
      var t := SortBy(init, f, dir);
      assert s == init + [x];
      InsertPermutes(x, t, f, dir);
      InsertOrdered(x, t, f, dir);
      forall k ensures WithKey(Insert(x, t, f, dir), f, k) == WithKey(s, f, k) {
        InsertStable(x, t, f, dir, k);
        WithKeyAppend(init, x, f, k);
      }
      Insert(x, t, f, dir)
  }

  /** An entry that has only the given bmi. */
  function WithBmi(b: real): Entry {
    Entry(None, None, None, None, None, None, Some(b), None)
  }

  /** Three entries with bmi 18.0, 32.1 and 24.0, sorted by bmi descending. */
  lemma SortExample()
    ensures SortBy([WithBmi(18.0), WithBmi(32.1), WithBmi(24.0)], ByBmi, Desc)
         == [WithBmi(32.1), WithBmi(24.0), WithBmi(18.0)]
  {
    var a, b, c := WithBmi(18.0), WithBmi(32.1), WithBmi(24.0);
    assert [a, b, c][..2] == [a, b] && [a, b][..1] == [a] && [a][..0] == [];
    assert SortBy([a], ByBmi, Desc) == [a];
    assert SortBy([a, b], ByBmi, Desc) == [b, a];
    assert Insert(c, [b, a], ByBmi, Desc) == [b, c, a];
  }

  /** An entry without the key sorts as if its value were 0. */
  lemma MissingKeySortsAsZero(e: Entry)
    requires e.bmi.None?
    ensures SortBy([WithBmi(18.0), e], ByBmi, Asc) == [e, WithBmi(18.0)]
  {
    var a := WithBmi(18.0);
    assert [a, e][..1] == [a] && [a][..0] == [];
    assert SortBy([a], ByBmi, Asc) == [a];
  }
}
