/** `reorder_columns`: the columns of the combined table are put in the
    canonical order (`date_time`, `Compound`, then the calibration compounds),
    keeping only those present, and any other column is appended in its
    original order. */
module Columns {
  import opened Calibration

  /** `desired_order`: the two key columns, then the calibration compounds
      in table order (`DesiredOrderAsWritten` checks the list as written). */
  const DesiredOrder: seq<string> := ["date_time", "Compound"] + CompoundNames

  predicate Distinct(s: seq<string>) {
    forall i, j :: 0 <= i < j < |s| ==> s[i] != s[j]
  }

  /** `list.remove(x)`: drop the first occurrence of `x`. */
  function Remove(s: seq<string>, x: string): (r: seq<string>)
    ensures x in s ==> |r| == |s| - 1
    ensures x !in s ==> r == s
  {
    if s == [] then []
    else if s[0] == x then s[1..]
    else [s[0]] + Remove(s[1..], x)
  }

  /** `list.insert(pos, x)`. */
  function Insert(s: seq<string>, pos: nat, x: string): (r: seq<string>)
    ensures |r| == |s| + 1
  {
    if pos >= |s| then s + [x] else s[..pos] + [x] + s[pos..]
  }

  /** `if name in present: order.remove(name); order.insert(pos, name)`. */
  function Pin(order: seq<string>, name: string, pos: nat, present: seq<string>): seq<string> {
    if name in present && name in order then Insert(Remove(order, name), pos, name) else order
  }

  /** The elements of `s` that occur in `pool`, in the order of `s`. */
  function Within(s: seq<string>, pool: seq<string>): (r: seq<string>)
    ensures forall x :: x in r <==> x in s && x in pool
    ensures |r| <= |s|
  {
    if s == [] then []
    else (if s[0] in pool then [s[0]] else []) + Within(s[1..], pool)
  }

  /** The elements of `s` that do not occur in `pool`, in the order of `s`. */
  function Outside(s: seq<string>, pool: seq<string>): (r: seq<string>)
    ensures forall x :: x in r <==> x in s && x !in pool
    ensures |r| <= |s|
  {
    if s == [] then []
    else (if s[0] !in pool then [s[0]] else []) + Outside(s[1..], pool)
  }

  /** `for col in xs: order.remove(col)`. */
  function RemoveEach(s: seq<string>, xs: seq<string>): seq<string>
    decreases |xs|
  {
    if xs == [] then s else RemoveEach(Remove(s, xs[0]), xs[1..])
  }

  /** `reorder_columns` on the list of present columns. */
  function Reorder(columns: seq<string>): (r: seq<string>)
    ensures forall x :: x in r <==> x in columns
  {
    var order := Pin(Pin(DesiredOrder, "date_time", 0, columns), "Compound", 1, columns);
    var toRemove := Outside(order, columns);
    PinsKeepOrder(columns);
    DesiredOrderDistinct();
    RemoveEachIsOutside(order, toRemove);
    var kept := RemoveEach(order, toRemove);
    var toAdd := Outside(columns, kept);
    kept + toAdd
  }

  /** Position of `x` in `s`. */
  function IndexIn(s: seq<string>, x: string): (k: nat)
    requires x in s
    ensures k < |s| && s[k] == x
  {
    if s[0] == x then 0 else 1 + IndexIn(s[1..], x)
  }

  /** Position of a known column in the canonical order. */
  function Rank(x: string): nat
    requires x in DesiredOrder
  {
    IndexIn(DesiredOrder, x)
  }

  lemma DesiredOrderAsWritten()
    ensures DesiredOrder ==
      ["date_time", "Compound"] +
      ["Ethane", "Ethylene", "Propane", "Propylene", "Acetylene", "Trans-2-butene", "1-Butene", "i-butane"] +
      ["Cyclopentane", "Isopentane", "n-pentane", "1-pentene", "Trans-2-pentene", "2,2-dimethyl-butane", "2,3-dimethyl-butane", "2-methylpentane"] +
      ["Isoprene", "Hexane", "Methyl-cyclopentane", "2,4-dimethylpentane", "2-methylhexane", "Benzene", "Cyclohexane", "2,3-dimethyl-pentane"] +
      ["3-methylhexane", "Heptane", "2,3,4-trimethylpentane", "Toluene", "2-methylheptane", "n-octane", "Ethylbenzene", "isooctane"] +
      ["mp-xylene", "Styrene", "o-xylene", "Propyl-benzene", "Nonane", "4-Ethyltoluene", "1,3,5-TMB", "2-ethyltoluene"] +
      ["1,2,4-TMB", "Decane", "1,23,TMB", "1,3-diethyl benzene", "1,4-diethyl benzene", "undecane"]
  {
  }

  lemma NameColumnHasNoKeys()
    ensures forall i :: 0 <= i < |CompoundNames| ==> CompoundNames[i] != "date_time" && CompoundNames[i] != "Compound"
  {
  }

  /** After `date_time` and `Compound`, the canonical order is exactly the
      compound column of the calibration table, and it has no repeats. */
  lemma DesiredOrderIsTable()
    ensures forall i :: 2 <= i < |DesiredOrder| ==> DesiredOrder[i] == Table()[i - 2].compound
    ensures Distinct(DesiredOrder)
  {
    DesiredOrderDistinct();
  }

  lemma DesiredOrderDistinct()
    ensures Distinct(DesiredOrder)
  {
    NameColumnDistinct();
    NameColumnHasNoKeys();
    var d := DesiredOrder;
    assert forall i :: 2 <= i < |d| ==> d[i] == CompoundNames[i - 2];
    forall i, j | 0 <= i < j < |d| ensures d[i] != d[j] {
      if i >= 2 {
        assert d[i] == CompoundNames[i - 2] && d[j] == CompoundNames[j - 2];
      } else {
        assert d[j] == (if j == 1 then "Compound" else CompoundNames[j - 2]);
      }
    }
  }

  lemma DesiredOrderHead()
    ensures |DesiredOrder| >= 2 && DesiredOrder[0] == "date_time" && DesiredOrder[1] == "Compound"
  {
  }

  /** Lines 283-288 move `date_time` to position 0 and `Compound` to position
      1, where the canonical order already has them: the order is unchanged. */
  lemma PinsKeepOrder(columns: seq<string>)
    ensures Pin(Pin(DesiredOrder, "date_time", 0, columns), "Compound", 1, columns) == DesiredOrder
  {
    var d := DesiredOrder;
    assert d[0] == "date_time" && d[1] == "Compound";
    assert Remove(d, "date_time") == d[1..];
    assert Insert(d[1..], 0, "date_time") == d;
    assert d[1..][0] == "Compound";
    assert Remove(d[1..], "Compound") == d[2..];
    assert Remove(d, "Compound") == [d[0]] + d[2..];
    assert Insert([d[0]] + d[2..], 1, "Compound") == d;
  }

  /** Dropping the head of a list without repeats leaves a list without
      repeats that does not contain the head. */
  lemma DistinctTail(s: seq<string>)
    requires Distinct(s) && s != []
    ensures Distinct(s[1..]) && s[0] !in s[1..]
  {
    assert forall i :: 0 <= i < |s| - 1 ==> s[1..][i] == s[i + 1];
  }

  lemma {:induction false} OutsideNoneInPool(s: seq<string>, pool: seq<string>)
    requires forall x :: x in s ==> x !in pool
    ensures Outside(s, pool) == s
  {
    if s != [] {
      OutsideNoneInPool(s[1..], pool);
      assert s == [s[0]] + s[1..];
    }
  }

  lemma {:induction false} OutsideAllInPool(s: seq<string>, pool: seq<string>)
    requires forall x :: x in s ==> x in pool
    ensures Outside(s, pool) == []
  {
    if s != [] {
      OutsideAllInPool(s[1..], pool);
    }
  }

  lemma {:induction false} OutsideDistinct(s: seq<string>, pool: seq<string>)
    requires Distinct(s)
    ensures Distinct(Outside(s, pool))
  {
    if s != [] {
      DistinctTail(s);
      OutsideDistinct(s[1..], pool);
    }
  }

  lemma {:induction false} OutsideTwice(s: seq<string>, a: seq<string>, b: seq<string>)
    ensures Outside(Outside(s, a), b) == Outside(s, a + b)
  {
    if s != [] {
      OutsideTwice(s[1..], a, b);
      var rest := Outside(s[1..], a);
      assert s[0] in a + b <==> s[0] in a || s[0] in b;
      if s[0] !in a {
        var t := [s[0]] + rest;
        assert Outside(s, a) == t;
        assert t[0] == s[0] && t[1..] == rest;
        assert Outside(t, b) == (if s[0] !in b then [s[0]] else []) + Outside(rest, b);
      } else {
        assert Outside(s, a) == rest;
      }
    }
  }

  lemma {:induction false} RemoveIsOutside(s: seq<string>, x: string)
    requires Distinct(s)
    ensures Remove(s, x) == Outside(s, [x])
  {
    if s != [] {
      DistinctTail(s);
      if s[0] == x {
        assert forall y :: y in s[1..] ==> y !in [x] by {
          forall j | 0 <= j < |s[1..]| ensures s[1..][j] != x {
            assert s[1..][j] == s[j + 1];
          }
        }
        OutsideNoneInPool(s[1..], [x]);
      } else {
        RemoveIsOutside(s[1..], x);
      }
    }
  }

  /** Removing the listed names one by one from an order without repeats
      keeps exactly the names not listed. */
  lemma {:induction false} RemoveEachIsOutside(s: seq<string>, xs: seq<string>)
    requires Distinct(s)
    ensures RemoveEach(s, xs) == Outside(s, xs)
    decreases |xs|
  {
    if xs == [] {
      OutsideNoneInPool(s, xs);
    } else {
      RemoveIsOutside(s, xs[0]);
      OutsideDistinct(s, [xs[0]]);
      RemoveEachIsOutside(Outside(s, [xs[0]]), xs[1..]);
      OutsideTwice(s, [xs[0]], xs[1..]);
      assert [xs[0]] + xs[1..] == xs;
    }
  }

  lemma {:induction false} OutsideCongruent(s: seq<string>, a: seq<string>, b: seq<string>)
    requires forall x :: x in s ==> (x in a <==> x in b)
    ensures Outside(s, a) == Outside(s, b)
  {
    if s != [] {
      OutsideCongruent(s[1..], a, b);
    }
  }

  lemma {:induction false} WithinCongruent(s: seq<string>, a: seq<string>, b: seq<string>)
    requires forall x :: x in s ==> (x in a <==> x in b)
    ensures Within(s, a) == Within(s, b)
  {
    if s != [] {
      WithinCongruent(s[1..], a, b);
    }
  }

  lemma {:induction false} OutsideIsWithin(s: seq<string>, a: seq<string>, b: seq<string>)
    requires forall x :: x in s ==> (x !in a <==> x in b)
    ensures Outside(s, a) == Within(s, b)
  {
    if s != [] {
      OutsideIsWithin(s[1..], a, b);
    }
  }

  /** The reordered list is the present canonical columns in canonical order,
      followed by the other present columns in their original order. */
  lemma ReorderShape(columns: seq<string>)
    ensures Reorder(columns) == Within(DesiredOrder, columns) + Outside(columns, DesiredOrder)
  {
    var order := Pin(Pin(DesiredOrder, "date_time", 0, columns), "Compound", 1, columns);
    PinsKeepOrder(columns);
    DesiredOrderDistinct();
    var toRemove := Outside(order, columns);
    RemoveEachIsOutside(order, toRemove);
    var kept := RemoveEach(order, toRemove);
    OutsideIsWithin(DesiredOrder, toRemove, columns);
    assert kept == Within(DesiredOrder, columns);
    OutsideCongruent(columns, kept, DesiredOrder);
  }

  lemma {:induction false} DistinctMultiplicity(s: seq<string>, x: string)
    requires Distinct(s)
    ensures multiset(s)[x] == if x in s then 1 else 0
  {
    if s != [] {
      DistinctTail(s);
      DistinctMultiplicity(s[1..], x);
      assert s == [s[0]] + s[1..];
    }
  }

  lemma {:induction false} WithinDistinct(s: seq<string>, pool: seq<string>)
    requires Distinct(s)
    ensures Distinct(Within(s, pool))
  {
    if s != [] {
      DistinctTail(s);
      WithinDistinct(s[1..], pool);
    }
  }

  lemma {:induction false} SplitMultiset(s: seq<string>, pool: seq<string>)
    ensures multiset(Within(s, pool)) + multiset(Outside(s, pool)) == multiset(s)
  {
    if s != [] {
      var w := Within(s[1..], pool);
      var o := Outside(s[1..], pool);
      SplitMultiset(s[1..], pool);
      assert multiset(s) == multiset([s[0]]) + multiset(s[1..]) by {
        assert s == [s[0]] + s[1..];
      }
      if s[0] in pool {
        assert Within(s, pool) == [s[0]] + w;
        assert Outside(s, pool) == o;
        assert multiset([s[0]] + w) == multiset([s[0]]) + multiset(w);
      } else {
        assert Within(s, pool) == w;
        assert Outside(s, pool) == [s[0]] + o;
        assert multiset([s[0]] + o) == multiset([s[0]]) + multiset(o);
      }
    }
  }

  /** On a column list without repeats, reordering is a permutation. */
  lemma ReorderIsPermutation(columns: seq<string>)
    requires Distinct(columns)
    ensures multiset(Reorder(columns)) == multiset(columns)
  {
    ReorderShape(columns);
    DesiredOrderDistinct();
    var known := Within(DesiredOrder, columns);
    var mine := Within(columns, DesiredOrder);
    WithinDistinct(DesiredOrder, columns);
    WithinDistinct(columns, DesiredOrder);
    forall x ensures multiset(known)[x] == multiset(mine)[x] {
      DistinctMultiplicity(known, x);
      DistinctMultiplicity(mine, x);
    }
    assert multiset(known) == multiset(mine);
    SplitMultiset(columns, DesiredOrder);
  }

  lemma IndexInTail(s: seq<string>, y: string)
    requires y in s && y != s[0]
    ensures y in s[1..] && IndexIn(s, y) == 1 + IndexIn(s[1..], y)
  {
    assert s == [s[0]] + s[1..];
  }

  lemma {:induction false} WithinFollowsOrder(s: seq<string>, pool: seq<string>)
    requires Distinct(s)
    ensures forall i, j :: 0 <= i < j < |Within(s, pool)| ==> IndexIn(s, Within(s, pool)[i]) < IndexIn(s, Within(s, pool)[j])
  {
    if s != [] {
      DistinctTail(s);
      WithinFollowsOrder(s[1..], pool);
      var rest := Within(s[1..], pool);
      var w := Within(s, pool);
      var off := if s[0] in pool then 1 else 0;
      assert w == (if s[0] in pool then [s[0]] else []) + rest;
      forall i, j | 0 <= i < j < |w| ensures IndexIn(s, w[i]) < IndexIn(s, w[j]) {
        IndexInRest(s, rest, w, off, j);
        if i >= off {
          IndexInRest(s, rest, w, off, i);
        }
      }
    }
  }

  lemma IndexInRest(s: seq<string>, rest: seq<string>, w: seq<string>, off: nat, k: nat)
    requires Distinct(s) && s != [] && off <= 1
    requires forall x :: x in rest ==> x in s[1..]
    requires w == (if off == 1 then [s[0]] else []) + rest
    requires off <= k < |w|
    ensures w[k] in s && w[k] in s[1..] && IndexIn(s, w[k]) == 1 + IndexIn(s[1..], rest[k - off])
  {
    DistinctTail(s);
    assert w[k] == rest[k - off] && rest[k - off] in rest;
    IndexInTail(s, w[k]);
  }

  /** For any order `d` without repeats, `Within(d, c) + Outside(c, d)` puts
      the names of `d` first, in the order of `d`, and the rest after. */
  lemma ArrangedLayout(d: seq<string>, columns: seq<string>)
    requires Distinct(d)
    ensures var w := Within(d, columns);
      var r := w + Outside(columns, d);
      && (forall i :: 0 <= i < |w| ==> r[i] in d && r[i] in columns)
      && (forall i, j :: 0 <= i < j < |w| ==> IndexIn(d, r[i]) < IndexIn(d, r[j]))
      && (forall i :: |w| <= i < |r| ==> r[i] !in d && r[i] in columns)
  {
    WithinFollowsOrder(d, columns);
    var w := Within(d, columns);
    var o := Outside(columns, d);
    var r := w + o;
    forall i | 0 <= i < |w| ensures r[i] in d && r[i] in columns {
      assert r[i] == w[i] && w[i] in w;
    }
    forall i, j | 0 <= i < j < |w| ensures IndexIn(d, r[i]) < IndexIn(d, r[j]) {
      assert r[i] == w[i] && r[j] == w[j];
    }
    forall i | |w| <= i < |r| ensures r[i] !in d && r[i] in columns {
      assert r[i] == o[i - |w|] && o[i - |w|] in o;
    }
  }

  /** The known columns come first, in canonical order; the unknown ones
      close the list in the order they had. */
  lemma ReorderLayout(columns: seq<string>)
    ensures var r := Reorder(columns);
      var k := |Within(DesiredOrder, columns)|;
      && k <= |r|
      && (forall i :: 0 <= i < k ==> r[i] in DesiredOrder && r[i] in columns)
      && (forall i, j :: 0 <= i < j < k ==> Rank(r[i]) < Rank(r[j]))
      && (forall i :: k <= i < |r| ==> r[i] !in DesiredOrder && r[i] in columns)
      && r[k..] == Outside(columns, DesiredOrder)
  {
    ReorderShape(columns);
    DesiredOrderDistinct();
    ArrangedLayout(DesiredOrder, columns);
  }

  /** The first two names of an order come first when present. */
  lemma {:induction false} WithinHead(d: seq<string>, columns: seq<string>)
    requires |d| >= 2
    ensures d[0] in columns ==> Within(d, columns)[0] == d[0]
    ensures d[1] in columns ==> |Within(d, columns)| > (if d[0] in columns then 1 else 0)
    ensures d[1] in columns ==> Within(d, columns)[if d[0] in columns then 1 else 0] == d[1]
  {
    var tail := Within(d[2..], columns);
    assert d[1..][0] == d[1] && d[1..][1..] == d[2..];
    assert Within(d[1..], columns) == (if d[1] in columns then [d[1]] else []) + tail;
    assert Within(d, columns) == (if d[0] in columns then [d[0]] else []) + Within(d[1..], columns);
  }

  lemma ArrangedHead(d: seq<string>, columns: seq<string>)
    requires |d| >= 2
    ensures var r := Within(d, columns) + Outside(columns, d);
      && (d[0] in columns ==> r[0] == d[0])
      && (d[1] in columns ==> |r| > (if d[0] in columns then 1 else 0))
      && (d[1] in columns ==> r[if d[0] in columns then 1 else 0] == d[1])
  {
    WithinHead(d, columns);
  }

  /** `date_time` comes first when present, then `Compound` when present. */
  lemma ReorderHead(columns: seq<string>)
    ensures "date_time" in columns ==> |Reorder(columns)| > 0 && Reorder(columns)[0] == "date_time"
    ensures "Compound" in columns ==> var k := if "date_time" in columns then 1 else 0;
      k < |Reorder(columns)| && Reorder(columns)[k] == "Compound"
  {
    ReorderShape(columns);
    DesiredOrderHead();
    ArrangedHead(DesiredOrder, columns);
  }

  lemma ArrangedMembers(d: seq<string>, columns: seq<string>)
    ensures forall x :: x in d ==> (x in Within(d, columns) + Outside(columns, d) <==> x in columns)
  {
    var known := Within(d, columns);
    var unknown := Outside(columns, d);
    forall x | x in d ensures x in known + unknown <==> x in columns {
      assert x in known + unknown <==> x in known || x in unknown;
    }
  }

  /** Arranging an already arranged list changes nothing. */
  lemma ArrangedIdempotent(d: seq<string>, columns: seq<string>)
    ensures var r := Within(d, columns) + Outside(columns, d);
      Within(d, r) + Outside(r, d) == r
  {
    var known := Within(d, columns);
    var unknown := Outside(columns, d);
    var r := known + unknown;
    ArrangedMembers(d, columns);
    WithinCongruent(d, r, columns);
    assert Within(d, r) == known;
    OutsideAppend(known, unknown, d);
    OutsideAllInPool(known, d);
    OutsideNoneInPool(unknown, d);
    assert Outside(r, d) == unknown;
  }

  /** Reordering an already reordered list changes nothing. */
  lemma ReorderIdempotent(columns: seq<string>)
    ensures Reorder(Reorder(columns)) == Reorder(columns)
  {
    ReorderShape(columns);
    ReorderShape(Reorder(columns));
    ArrangedIdempotent(DesiredOrder, columns);
  }

  lemma {:induction false} OutsideAppend(a: seq<string>, b: seq<string>, pool: seq<string>)
    ensures Outside(a + b, pool) == Outside(a, pool) + Outside(b, pool)
  {
    if a == [] {
      assert a + b == b;
    } else {
      assert (a + b)[0] == a[0] && (a + b)[1..] == a[1..] + b;
      OutsideAppend(a[1..], b, pool);
    }
  }
}
