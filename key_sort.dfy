/**
 * `Vec::sort_by_key` with a colour-channel key, as the quantiser uses it
 * (src/median_cutoff.rs:67-75). The library sort is stable; it is modelled
 * here by a stable insertion sort and characterised by three facts: the
 * result is ordered by the key, it is a permutation of the input, and the
 * pixels sharing a key keep their relative order. Those three facts fix the
 * result uniquely, so any stable sort yields the same sequence.
 */
module KeySort {
  import opened Colors

  /** The channel a group is sorted by. */
  datatype Channel = Red | Green | Blue

  /** The sort key closure `|p: &HexColor| p.r` (or `.g`, `.b`). */
  function Key(c: HexColor, ch: Channel): u8
  {
    match ch
    case Red => c.r
    case Green => c.g
    case Blue => c.b
  }

  ghost predicate SortedBy(s: seq<HexColor>, ch: Channel)
  {
    forall i, j :: 0 <= i < j < |s| ==> Key(s[i], ch) <= Key(s[j], ch)
  }

  /** The pixels of `s` whose key is `v`, in their order in `s`. */
  function WithKey(s: seq<HexColor>, ch: Channel, v: u8): seq<HexColor>
  {
    if s == [] then []
    else WithKey(s[..|s| - 1], ch, v) + (if Key(s[|s| - 1], ch) == v then [s[|s| - 1]] else [])
  }

  /** Places `x` after every element of `s` whose key is not larger than its own. */
  function Insert(s: seq<HexColor>, x: HexColor, ch: Channel): seq<HexColor>
  {
    if s == [] then [x]
    else if Key(s[|s| - 1], ch) <= Key(x, ch) then s + [x]
    else Insert(s[..|s| - 1], x, ch) + [s[|s| - 1]]
  }

  /** The result of `s.sort_by_key(key)`. */
  function SortByKey(s: seq<HexColor>, ch: Channel): seq<HexColor>
  {
    if s == [] then []
    else Insert(SortByKey(s[..|s| - 1], ch), s[|s| - 1], ch)
  }

  lemma WithKeySnoc(s: seq<HexColor>, x: HexColor, ch: Channel, v: u8)
    ensures WithKey(s + [x], ch, v) == WithKey(s, ch, v) + (if Key(x, ch) == v then [x] else [])
  {
    assert (s + [x])[..|s|] == s;
  }

  lemma {:induction false} WithKeyMembers(s: seq<HexColor>, ch: Channel, v: u8, x: HexColor)
    ensures x in WithKey(s, ch, v) <==> x in s && Key(x, ch) == v
  {
    if s != [] {
      WithKeyMembers(s[..|s| - 1], ch, v, x);
      assert s == s[..|s| - 1] + [s[|s| - 1]];
    }
  }

  lemma {:induction false} InsertPermutes(s: seq<HexColor>, x: HexColor, ch: Channel)
    ensures multiset(Insert(s, x, ch)) == multiset(s) + multiset{x}
  {
    if s != [] && Key(s[|s| - 1], ch) > Key(x, ch) {
      var init, last := s[..|s| - 1], s[|s| - 1];
      assert s == init + [last];
      InsertPermutes(init, x, ch);
    }
  }

  lemma {:induction false} InsertSorted(s: seq<HexColor>, x: HexColor, ch: Channel)
    requires SortedBy(s, ch)
    ensures SortedBy(Insert(s, x, ch), ch)
  {
    if s != [] && Key(s[|s| - 1], ch) > Key(x, ch) {
      var init, last := s[..|s| - 1], s[|s| - 1];
      assert s == init + [last];
      assert SortedBy(init, ch);
      InsertSorted(init, x, ch);
      InsertPermutes(init, x, ch);
      var t := Insert(init, x, ch);
      forall i | 0 <= i < |t| ensures Key(t[i], ch) <= Key(last, ch) {
        assert t[i] in multiset(t);
        if t[i] != x {
          assert t[i] in multiset(init);
          var j :| 0 <= j < |init| && init[j] == t[i];
          assert s[j] == init[j];
        }
      }
    }
  }

  lemma {:induction false} InsertWithKey(s: seq<HexColor>, x: HexColor, ch: Channel, v: u8)
    ensures WithKey(Insert(s, x, ch), ch, v) == WithKey(s, ch, v) + (if Key(x, ch) == v then [x] else [])
  {
    if s == [] {
      WithKeySnoc([], x, ch, v);
    } else if Key(s[|s| - 1], ch) <= Key(x, ch) {
      WithKeySnoc(s, x, ch, v);
    } else {
      var init, last := s[..|s| - 1], s[|s| - 1];
      InsertWithKey(init, x, ch, v);
      WithKeySnoc(Insert(init, x, ch), last, ch, v);
    }
  }

  lemma {:induction false} InsertLength(s: seq<HexColor>, x: HexColor, ch: Channel)
    ensures |Insert(s, x, ch)| == |s| + 1
  {
    if s != [] && Key(s[|s| - 1], ch) > Key(x, ch) {
      InsertLength(s[..|s| - 1], x, ch);
    }
  }

  lemma {:induction false} SortByKeyLength(s: seq<HexColor>, ch: Channel)
    ensures |SortByKey(s, ch)| == |s|
  {
    if s != [] {
      SortByKeyLength(s[..|s| - 1], ch);
      InsertLength(SortByKey(s[..|s| - 1], ch), s[|s| - 1], ch);
    }
  }

  lemma {:induction false} SortByKeyPermutes(s: seq<HexColor>, ch: Channel)
    ensures multiset(SortByKey(s, ch)) == multiset(s)
  {
    if s != [] {
      var init, last := s[..|s| - 1], s[|s| - 1];
      assert s == init + [last];
      SortByKeyPermutes(init, ch);
      InsertPermutes(SortByKey(init, ch), last, ch);
    }
  }

  /** The sort orders the group by the key. */
  lemma {:induction false} SortByKeySorted(s: seq<HexColor>, ch: Channel)
    ensures SortedBy(SortByKey(s, ch), ch)
    ensures multiset(SortByKey(s, ch)) == multiset(s)
    ensures forall v: u8 :: WithKey(SortByKey(s, ch), ch, v) == WithKey(s, ch, v)
  {
    if s != [] {
      var init, last := s[..|s| - 1], s[|s| - 1];
      assert s == init + [last];
      SortByKeySorted(init, ch);
      InsertSorted(SortByKey(init, ch), last, ch);
      InsertPermutes(SortByKey(init, ch), last, ch);
      forall v: u8 ensures WithKey(SortByKey(s, ch), ch, v) == WithKey(s, ch, v) {
        InsertWithKey(SortByKey(init, ch), last, ch, v);
        WithKeySnoc(init, last, ch, v);
      }
    }
  }

  lemma SortedAtMostLast(s: seq<HexColor>, ch: Channel, x: HexColor)
    requires SortedBy(s, ch) && x in s
    ensures Key(x, ch) <= Key(s[|s| - 1], ch)
  {
    var i :| 0 <= i < |s| && s[i] == x;
    if i < |s| - 1 {
      assert Key(s[i], ch) <= Key(s[|s| - 1], ch);
    }
  }

  /** Sequences that agree on every key's pixels and are both ordered end in the same pixel. */
  lemma LastAgrees(a: seq<HexColor>, b: seq<HexColor>, ch: Channel)
    requires SortedBy(a, ch) && SortedBy(b, ch) && a != [] && b != []
    requires forall v: u8 :: WithKey(a, ch, v) == WithKey(b, ch, v)
    ensures a[|a| - 1] == b[|b| - 1]
  {
    var x, y := a[|a| - 1], b[|b| - 1];
    WithKeyMembers(a, ch, Key(x, ch), x);
    WithKeyMembers(b, ch, Key(x, ch), x);
    SortedAtMostLast(b, ch, x);
    WithKeyMembers(b, ch, Key(y, ch), y);
    WithKeyMembers(a, ch, Key(y, ch), y);
    SortedAtMostLast(a, ch, y);
    var k := Key(x, ch);
    assert WithKey(a, ch, k) == WithKey(a[..|a| - 1], ch, k) + [x];
    assert WithKey(b, ch, k) == WithKey(b[..|b| - 1], ch, k) + [y];
  }

  lemma DropLastAgrees(a: seq<HexColor>, b: seq<HexColor>, ch: Channel, v: u8)
    requires a != [] && b != [] && a[|a| - 1] == b[|b| - 1]
    requires WithKey(a, ch, v) == WithKey(b, ch, v)
    ensures WithKey(a[..|a| - 1], ch, v) == WithKey(b[..|b| - 1], ch, v)
  {
    var x := a[|a| - 1];
    if Key(x, ch) == v {
      var p, q := WithKey(a[..|a| - 1], ch, v), WithKey(b[..|b| - 1], ch, v);
      assert p + [x] == q + [x];
      assert p == (p + [x])[..|p|];
      assert q == (q + [x])[..|q|];
    }
  }

  /**
   * Two sequences ordered by the key that agree on the pixels of every key
   * value, in order, are the same sequence.
   */
  lemma {:induction false} SortedStableUnique(a: seq<HexColor>, b: seq<HexColor>, ch: Channel)
    requires SortedBy(a, ch) && SortedBy(b, ch)
    requires forall v: u8 :: WithKey(a, ch, v) == WithKey(b, ch, v)
    ensures a == b
    decreases |a|
  {
    if a == [] && b != [] {
      var y := b[|b| - 1];
      WithKeyMembers(b, ch, Key(y, ch), y);
      WithKeyMembers(a, ch, Key(y, ch), y);
    } else if a != [] && b == [] {
      var x := a[|a| - 1];
      WithKeyMembers(a, ch, Key(x, ch), x);
      WithKeyMembers(b, ch, Key(x, ch), x);
    } else if a != [] {
      LastAgrees(a, b, ch);
      var a', b' := a[..|a| - 1], b[..|b| - 1];
      forall v: u8 ensures WithKey(a', ch, v) == WithKey(b', ch, v) {
        DropLastAgrees(a, b, ch, v);
      }
      assert SortedBy(a', ch) && SortedBy(b', ch);
      SortedStableUnique(a', b', ch);
      assert a == a' + [a[|a| - 1]] && b == b' + [b[|b| - 1]];
    }
  }

  /**
   * `SortByKey` is the only ordered, stable rearrangement of `s`; so it is
   * what every stable sort by that key produces.
   */
  lemma SortByKeyIsTheStableSort(s: seq<HexColor>, t: seq<HexColor>, ch: Channel)
    requires SortedBy(t, ch)
    requires forall v: u8 :: WithKey(t, ch, v) == WithKey(s, ch, v)
    ensures t == SortByKey(s, ch)
  {
    SortByKeySorted(s, ch);
    SortedStableUnique(t, SortByKey(s, ch), ch);
  }

  /** Sorting a sequence that is already in key order changes nothing. */
  lemma SortByKeyOfSorted(s: seq<HexColor>, ch: Channel)
    requires SortedBy(s, ch)
    ensures SortByKey(s, ch) == s
  {
    SortByKeyIsTheStableSort(s, s, ch);
  }
}
