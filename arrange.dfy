/**
 * How a managed schema arranges its fields by schemata (form tab):
 * the schemata names in order of first appearance, the fields of one
 * schemata, and the rebuilt field order that `moveSchemata` and
 * `moveField` produce.
 */
module Arrange {
  import opened Py
  import opened Seqs
  import opened Fields

  /** The test `field.schemata == s`, as a function value. */
  function SchemataIs(s: string): Field -> bool
  {
    (f: Field) => f.schemata == s
  }

  /** `getSchemataFields(s)`: the fields of schemata `s`, in field order. */
  function Group(fs: seq<Field>, s: string): seq<Field>
  {
    Filter(fs, SchemataIs(s))
  }

  /** The schemata of each field, in field order. */
  function Tabs(fs: seq<Field>): seq<string>
  {
    seq(|fs|, i requires 0 <= i < |fs| => fs[i].schemata)
  }

  /** `getSchemataNames()`: each schemata once, in order of first appearance. */
  function SchemataNames(fs: seq<Field>): seq<string>
  {
    Dedup(Tabs(fs))
  }

  /** What the rebuild adds for schemata `s`: `lst` for `s0`, the schemata's own fields otherwise. */
  function Part(fs: seq<Field>, s: string, s0: string, lst: seq<Field>): seq<Field>
  {
    if s == s0 then lst else Group(fs, s)
  }

  /** The rebuilt order: the part of each schemata of `order`, one after another. */
  function Layout(fs: seq<Field>, order: seq<string>, s0: string, lst: seq<Field>): seq<Field>
  {
    if order == [] then []
    else Layout(fs, order[..|order| - 1], s0, lst) + Part(fs, order[|order| - 1], s0, lst)
  }

  /**
   * Moving the element at `pos` one step left (`dir == -1`) or right
   * (`dir == 1`): `del lst[pos]` and `lst.insert(pos + dir, x)`, skipped
   * at the left end (an insert past the right end appends, which leaves
   * the list as it was).
   */
  function MoveIn<T>(lst: seq<T>, pos: nat, dir: int): (r: seq<T>)
    requires pos < |lst| && (dir == -1 || dir == 1)
    ensures multiset(r) == multiset(lst)
  {
    if dir == -1 && pos == 0 then lst
    else Insert(Delete(lst, pos), pos + dir, lst[pos])
  }

  /** The list with the elements at `i` and `j` exchanged. */
  function Swap<T>(lst: seq<T>, i: nat, j: nat): seq<T>
    requires i < |lst| && j < |lst|
  {
    lst[i := lst[j]][j := lst[i]]
  }

  /** The fields `moveSchemata(name, dir)` re-adds, in order. */
  function MoveSchemataOrder(fs: seq<Field>, name: string, dir: int): seq<Field>
    requires name in SchemataNames(fs) && (dir == -1 || dir == 1)
  {
    var names := SchemataNames(fs);
    Layout(fs, MoveIn(names, Find(names, name), dir), name, Group(fs, name))
  }

  /** The field named `name` is one of the fields of its schemata. */
  lemma InOwnGroup(fs: seq<Field>, k: nat)
    requires k < |fs|
    ensures fs[k] in Group(fs, fs[k].schemata)
    ensures fs[k].name in Names(Group(fs, fs[k].schemata))
  {
    var g := Group(fs, fs[k].schemata);
    FilterIn(fs, SchemataIs(fs[k].schemata));
    assert SchemataIs(fs[k].schemata)(fs[k]);
    var j :| 0 <= j < |g| && g[j] == fs[k];
    InNames(g, j);
  }

  /** The schemata of the field named `name`. */
  function SchemataOf(fs: seq<Field>, name: string): string
    requires name in Names(fs)
  {
    fs[Find(Names(fs), name)].schemata
  }

  /** The fields of the schemata of `name` after `moveField(name, dir)` moved it among them. */
  function MovedGroup(fs: seq<Field>, name: string, dir: int): seq<Field>
    requires name in Names(fs) && (dir == -1 || dir == 1)
  {
    var lst := Group(fs, SchemataOf(fs, name));
    InOwnGroup(fs, Find(Names(fs), name));
    MoveIn(lst, Find(Names(lst), name), dir)
  }

  /** The fields `moveField(name, dir)` re-adds, in order. */
  function MoveFieldOrder(fs: seq<Field>, name: string, dir: int): seq<Field>
    requires name in Names(fs) && (dir == -1 || dir == 1)
  {
    Layout(fs, SchemataNames(fs), SchemataOf(fs, name), MovedGroup(fs, name, dir))
  }

  // ---------------------------------------------------------------------
  // Moving inside a list

  /**
   * A move exchanges the element with its neighbour in the direction of
   * the move, and changes nothing when there is no neighbour there.
   */
  lemma MoveInSwap<T>(lst: seq<T>, pos: nat, dir: int)
    requires pos < |lst| && (dir == -1 || dir == 1)
    ensures 0 <= pos + dir < |lst| ==> MoveIn(lst, pos, dir) == Swap(lst, pos, pos + dir)
    ensures !(0 <= pos + dir < |lst|) ==> MoveIn(lst, pos, dir) == lst
  {
    if 0 <= pos + dir < |lst| {
      var i := if dir == 1 then pos else pos - 1;
      SwapNext(lst, i);
      if dir == 1 {
        MoveRight(lst, pos);
      } else {
        MoveLeft(lst, pos);
      }
    } else if dir == 1 {
      assert lst[..pos] + lst[pos + 1..] == lst[..pos];
    }
  }

  /** Exchanging neighbours at `i` and `i + 1`. */
  lemma SwapNext<T>(lst: seq<T>, i: nat)
    requires i + 1 < |lst|
    ensures Swap(lst, i, i + 1) == lst[..i] + [lst[i + 1], lst[i]] + lst[i + 2..]
    ensures Swap(lst, i + 1, i) == lst[..i] + [lst[i + 1], lst[i]] + lst[i + 2..]
  {
    var w := lst[..i] + [lst[i + 1], lst[i]] + lst[i + 2..];
    assert |w| == |lst|;
    forall k | 0 <= k < |lst| ensures Swap(lst, i, i + 1)[k] == w[k] && Swap(lst, i + 1, i)[k] == w[k] {
      if k < i {
        assert w[k] == lst[..i][k];
      } else if k >= i + 2 {
        assert w[k] == lst[i + 2..][k - i - 2];
      }
    }
  }

  lemma MoveRight<T>(lst: seq<T>, pos: nat)
    requires pos + 1 < |lst|
    ensures MoveIn(lst, pos, 1) == lst[..pos] + [lst[pos + 1], lst[pos]] + lst[pos + 2..]
  {
    var d := Delete(lst, pos);
    assert d == lst[..pos] + [lst[pos + 1]] + lst[pos + 2..];
    if pos + 1 < |d| {
      assert d[..pos + 1] == lst[..pos] + [lst[pos + 1]];
      assert d[pos + 1..] == lst[pos + 2..];
    } else {
      assert lst[pos + 2..] == [];
    }
  }

  lemma MoveLeft<T>(lst: seq<T>, pos: nat)
    requires 0 < pos < |lst|
    ensures MoveIn(lst, pos, -1) == lst[..pos - 1] + [lst[pos], lst[pos - 1]] + lst[pos + 1..]
  {
    var d := Delete(lst, pos);
    assert d == lst[..pos - 1] + [lst[pos - 1]] + lst[pos + 1..];
    assert d[..pos - 1] == lst[..pos - 1];
    assert d[pos - 1..] == [lst[pos - 1]] + lst[pos + 1..];
  }

  // ---------------------------------------------------------------------
  // Groups

  lemma GroupAppend(a: seq<Field>, b: seq<Field>, s: string)
    ensures Group(a + b, s) == Group(a, s) + Group(b, s)
  {
    FilterAppend(a, b, SchemataIs(s));
  }

  /** The fields of a list whose fields all belong to `t`, by schemata. */
  lemma GroupOfRun(xs: seq<Field>, t: string, s: string)
    requires forall i :: 0 <= i < |xs| ==> xs[i].schemata == t
    ensures Group(xs, s) == if s == t then xs else []
  {
    if s == t {
      FilterAll(xs, SchemataIs(s));
    } else {
      FilterNone(xs, SchemataIs(s));
    }
  }

  lemma GroupIsRun(fs: seq<Field>, s: string)
    ensures forall i :: 0 <= i < |Group(fs, s)| ==> Group(fs, s)[i].schemata == s
  {
    var g := Group(fs, s);
    FilterIn(fs, SchemataIs(s));
    forall i | 0 <= i < |g| ensures g[i].schemata == s {
      assert SchemataIs(s)(g[i]);
    }
  }

  /** A list with the same elements as a run of `t` is a run of `t`. */
  lemma RunPermutation(xs: seq<Field>, ys: seq<Field>, t: string)
    requires forall i :: 0 <= i < |xs| ==> xs[i].schemata == t
    requires multiset(ys) == multiset(xs)
    ensures forall i :: 0 <= i < |ys| ==> ys[i].schemata == t
  {
    forall i | 0 <= i < |ys| ensures ys[i].schemata == t {
      assert ys[i] in multiset(xs);
    }
  }

  ghost predicate RunOf(lst: seq<Field>, s0: string)
  {
    forall i :: 0 <= i < |lst| ==> lst[i].schemata == s0
  }

  /**
   * In the rebuilt order, schemata `s` holds exactly its part when `s`
   * is in `order`, and nothing otherwise.
   */
  lemma {:induction false} LayoutGroups(fs: seq<Field>, order: seq<string>, s0: string, lst: seq<Field>, s: string)
    requires Distinct(order) && RunOf(lst, s0)
    ensures Group(Layout(fs, order, s0, lst), s) == if s in order then Part(fs, s, s0, lst) else []
  {
    if order != [] {
      var init, t := order[..|order| - 1], order[|order| - 1];
      assert order == init + [t];
      assert Distinct(init);
      LayoutGroups(fs, init, s0, lst, s);
      GroupAppend(Layout(fs, init, s0, lst), Part(fs, t, s0, lst), s);
      GroupIsRun(fs, t);
      GroupOfRun(Part(fs, t, s0, lst), t, s);
      forall k | 0 <= k < |init| ensures init[k] != t {
        assert order[k] == init[k];
      }
    }
  }

  lemma TabsAppend(a: seq<Field>, b: seq<Field>)
    ensures Tabs(a + b) == Tabs(a) + Tabs(b)
  {
  }

  /** The parts are non-empty: each schemata of `order` has a field, and `lst` is non-empty if `s0` is in `order`. */
  ghost predicate PartsNonEmpty(fs: seq<Field>, order: seq<string>, s0: string, lst: seq<Field>)
  {
    forall k :: 0 <= k < |order| ==> Part(fs, order[k], s0, lst) != []
  }

  /** The rebuilt order lists its schemata in exactly the order given. */
  lemma {:induction false} LayoutNames(fs: seq<Field>, order: seq<string>, s0: string, lst: seq<Field>)
    requires Distinct(order) && RunOf(lst, s0) && PartsNonEmpty(fs, order, s0, lst)
    ensures SchemataNames(Layout(fs, order, s0, lst)) == order
  {
    if order != [] {
      var init, t := order[..|order| - 1], order[|order| - 1];
      assert order == init + [t];
      assert Distinct(init);
      assert PartsNonEmpty(fs, init, s0, lst) by {
        forall k | 0 <= k < |init| ensures Part(fs, init[k], s0, lst) != [] {
          assert init[k] == order[k];
        }
      }
      LayoutNames(fs, init, s0, lst);
      var x, p := Layout(fs, init, s0, lst), Part(fs, t, s0, lst);
      TabsAppend(x, p);
      GroupIsRun(fs, t);
      forall k | 0 <= k < |init| ensures init[k] != t {
        assert order[k] == init[k];
      }
      assert t !in Tabs(x) by {
        DedupIn(Tabs(x));
        forall k | 0 <= k < |Tabs(x)| ensures Tabs(x)[k] != t {
          assert Tabs(x)[k] in Dedup(Tabs(x));
        }
      }
      assert p == Part(fs, order[|order| - 1], s0, lst);
      DedupAppendRun(Tabs(x), Tabs(p), t);
    }
  }

  /** The fields of `r` come schemata by schemata, in the order of `order`. */
  ghost predicate Grouped(r: seq<Field>, order: seq<string>)
  {
    && (forall i :: 0 <= i < |r| ==> r[i].schemata in order)
    && (forall i, j :: 0 <= i < j < |r| ==> Find(order, r[i].schemata) <= Find(order, r[j].schemata))
  }

  /** The rebuilt order keeps the fields of one schemata together, schemata by schemata in `order`. */
  lemma {:induction false} LayoutGrouped(fs: seq<Field>, order: seq<string>, s0: string, lst: seq<Field>)
    requires Distinct(order) && RunOf(lst, s0)
    ensures Grouped(Layout(fs, order, s0, lst), order)
  {
    if order != [] {
      var init, t := order[..|order| - 1], order[|order| - 1];
      assert order == init + [t];
      assert Distinct(init);
      LayoutGrouped(fs, init, s0, lst);
      GroupIsRun(fs, t);
      GroupedStep(Layout(fs, init, s0, lst), Part(fs, t, s0, lst), init, t);
    }
  }

  lemma GroupedStep(x: seq<Field>, p: seq<Field>, init: seq<string>, t: string)
    requires Distinct(init + [t]) && Grouped(x, init)
    requires forall i :: 0 <= i < |p| ==> p[i].schemata == t
    ensures Grouped(x + p, init + [t])
  {
    var order, r := init + [t], x + p;
    forall s | s in init ensures Find(order, s) == Find(init, s) < |init| {
      FindPrefix(init, [t], s);
    }
    DistinctSplit(order, |init|);
    assert order[..|init|] == init;
    FindUnique(order, t, |init|);
    forall i | 0 <= i < |r| ensures r[i].schemata in order {
      if i >= |x| {
        assert r[i] == p[i - |x|];
      } else {
        assert r[i] == x[i];
      }
    }
    forall i, j | 0 <= i < j < |r| ensures Find(order, r[i].schemata) <= Find(order, r[j].schemata) {
      if j >= |x| {
        assert r[j] == p[j - |x|];
        if i >= |x| {
          assert r[i] == p[i - |x|];
        } else {
          assert r[i] == x[i];
        }
      } else {
        assert r[i] == x[i] && r[j] == x[j];
      }
    }
  }

  // ---------------------------------------------------------------------
  // Permutation

  /** The test `field.schemata in order`, as a function value. */
  function SchemataIn(order: seq<string>): Field -> bool
  {
    (f: Field) => f.schemata in order
  }

  lemma FilterSchemataIn(fs: seq<Field>, order: seq<string>, t: string)
    requires t !in order
    ensures multiset(Filter(fs, SchemataIn(order + [t]))) ==
      multiset(Filter(fs, SchemataIn(order))) + multiset(Group(fs, t))
  {
    var p1, p0, q := SchemataIn(order + [t]), SchemataIn(order), SchemataIs(t);
    forall f ensures p1(f) == (p0(f) || q(f)) && !(p0(f) && q(f)) {}
    FilterSplit(fs, p1, p0, q);
  }

  /** Replacing the part of `s0` by a permutation of it permutes the rebuilt order. */
  lemma {:induction false} LayoutPartPermutation(fs: seq<Field>, order: seq<string>, s0: string, lst: seq<Field>)
    requires multiset(lst) == multiset(Group(fs, s0))
    ensures multiset(Layout(fs, order, s0, lst)) == multiset(Layout(fs, order, s0, Group(fs, s0)))
  {
    if order != [] {
      LayoutPartPermutation(fs, order[..|order| - 1], s0, lst);
    }
  }

  lemma {:induction false} LayoutOwnGroups(fs: seq<Field>, order: seq<string>, s0: string)
    requires Distinct(order)
    ensures multiset(Layout(fs, order, s0, Group(fs, s0))) == multiset(Filter(fs, SchemataIn(order)))
  {
    if order == [] {
      FilterNone(fs, SchemataIn(order));
    } else {
      var init, t := order[..|order| - 1], order[|order| - 1];
      assert order == init + [t];
      assert Distinct(init);
      LayoutOwnGroups(fs, init, s0);
      forall k | 0 <= k < |init| ensures init[k] != t {
        assert order[k] == init[k];
      }
      FilterSchemataIn(fs, init, t);
    }
  }

  /**
   * The rebuild over an order that lists every schemata once, with the
   * part of `s0` a permutation of its fields, is a permutation of the
   * fields.
   */
  lemma LayoutPermutation(fs: seq<Field>, order: seq<string>, s0: string, lst: seq<Field>)
    requires Distinct(order) && forall i :: 0 <= i < |fs| ==> fs[i].schemata in order
    requires multiset(lst) == multiset(Group(fs, s0))
    ensures multiset(Layout(fs, order, s0, lst)) == multiset(fs)
  {
    LayoutPartPermutation(fs, order, s0, lst);
    LayoutOwnGroups(fs, order, s0);
    FilterAll(fs, SchemataIn(order));
  }

  /** Two positions of a permutation of a duplicate-free list hold different elements. */
  lemma PermutationPositions<T>(fs: seq<T>, ts: seq<T>, i: nat, j: nat)
    requires Distinct(fs) && multiset(ts) == multiset(fs) && i < j < |ts|
    ensures ts[i] != ts[j]
  {
    if ts[i] == ts[j] {
      TwiceCounted(ts, i, j);
      DistinctCount(fs, ts[i]);
    }
  }

  /** The names stay unique and the structural rules keep holding under a permutation. */
  lemma PermutationFields(fs: seq<Field>, ts: seq<Field>)
    requires UniqueNames(fs) && multiset(ts) == multiset(fs)
    ensures UniqueNames(ts)
    ensures WellFormed(fs) ==> WellFormed(ts)
  {
    UniqueNamesDistinct(fs);
    forall i | 0 <= i < |ts| ensures ts[i] in fs {
      assert ts[i] in multiset(fs);
    }
    forall i, j | 0 <= i < j < |ts| ensures ts[i].name != ts[j].name {
      PermutationPositions(fs, ts, i, j);
      var a :| 0 <= a < |fs| && fs[a] == ts[i];
      var b :| 0 <= b < |fs| && fs[b] == ts[j];
      assert Names(fs)[a] == ts[i].name && Names(fs)[b] == ts[j].name;
    }
    assert UniqueNames(ts) by {
      forall i, j | 0 <= i < j < |ts| ensures Names(ts)[i] != Names(ts)[j] {}
    }
    if WellFormed(fs) {
      forall i, j | 0 <= i < j < |ts| && IsPrimary(ts[i]) ensures !IsPrimary(ts[j]) {
        PermutationPositions(fs, ts, i, j);
        var a :| 0 <= a < |fs| && fs[a] == ts[i];
        var b :| 0 <= b < |fs| && fs[b] == ts[j];
      }
      forall i | 0 <= i < |ts| ensures Qualified(ts[i]) {
        var a :| 0 <= a < |fs| && fs[a] == ts[i];
      }
    }
  }

  // ---------------------------------------------------------------------
  // The two moves

  lemma NamesOfFields(fs: seq<Field>)
    ensures Distinct(SchemataNames(fs))
    ensures forall i :: 0 <= i < |fs| ==> fs[i].schemata in SchemataNames(fs)
    ensures forall s :: s in SchemataNames(fs) ==> Group(fs, s) != []
  {
    DedupIn(Tabs(fs));
    forall i | 0 <= i < |fs| ensures fs[i].schemata in SchemataNames(fs) {
      assert Tabs(fs)[i] == fs[i].schemata;
    }
    forall s | s in SchemataNames(fs) ensures Group(fs, s) != [] {
      var k :| 0 <= k < |Tabs(fs)| && Tabs(fs)[k] == s;
      InOwnGroup(fs, k);
    }
  }

  /** The moved schemata order lists every schemata of the fields once, and each has a field. */
  lemma MovedSchemataNames(fs: seq<Field>, name: string, dir: int)
    requires name in SchemataNames(fs) && (dir == -1 || dir == 1)
    ensures var order := MoveIn(SchemataNames(fs), Find(SchemataNames(fs), name), dir);
      && Distinct(order)
      && (forall i :: 0 <= i < |fs| ==> fs[i].schemata in order)
      && RunOf(Group(fs, name), name)
      && PartsNonEmpty(fs, order, name, Group(fs, name))
  {
    MovedOrderCovers(fs, name, dir);
    MovedOrderParts(fs, name, dir);
    GroupIsRun(fs, name);
  }

  lemma MovedOrderCovers(fs: seq<Field>, name: string, dir: int)
    requires name in SchemataNames(fs) && (dir == -1 || dir == 1)
    ensures var order := MoveIn(SchemataNames(fs), Find(SchemataNames(fs), name), dir);
      Distinct(order) && forall i :: 0 <= i < |fs| ==> fs[i].schemata in order
  {
    var names := SchemataNames(fs);
    var order := MoveIn(names, Find(names, name), dir);
    NamesOfFields(fs);
    PermutationDistinct(names, order);
    forall i | 0 <= i < |fs| ensures fs[i].schemata in order {
      assert fs[i].schemata in multiset(names);
    }
  }

  lemma MovedOrderParts(fs: seq<Field>, name: string, dir: int)
    requires name in SchemataNames(fs) && (dir == -1 || dir == 1)
    ensures PartsNonEmpty(fs, MoveIn(SchemataNames(fs), Find(SchemataNames(fs), name), dir), name, Group(fs, name))
  {
    var names := SchemataNames(fs);
    var order := MoveIn(names, Find(names, name), dir);
    NamesOfFields(fs);
    forall k | 0 <= k < |order| ensures Part(fs, order[k], name, Group(fs, name)) != [] {
      assert order[k] in multiset(names);
    }
  }

  /** The fields `moveSchemata` re-adds are a permutation of the fields, with the schemata in the moved order. */
  lemma MoveSchemataPermutes(fs: seq<Field>, name: string, dir: int)
    requires name in SchemataNames(fs) && (dir == -1 || dir == 1)
    ensures multiset(MoveSchemataOrder(fs, name, dir)) == multiset(fs)
    ensures SchemataNames(MoveSchemataOrder(fs, name, dir)) ==
      MoveIn(SchemataNames(fs), Find(SchemataNames(fs), name), dir)
  {
    var names := SchemataNames(fs);
    var order := MoveIn(names, Find(names, name), dir);
    MovedSchemataNames(fs, name, dir);
    LayoutPermutation(fs, order, name, Group(fs, name));
    LayoutNames(fs, order, name, Group(fs, name));
  }

  /** `moveSchemata` keeps the fields of every schemata, in their order. */
  lemma MoveSchemataGroups(fs: seq<Field>, name: string, dir: int)
    requires name in SchemataNames(fs) && (dir == -1 || dir == 1)
    ensures forall s :: Group(MoveSchemataOrder(fs, name, dir), s) == Group(fs, s)
  {
    var names := SchemataNames(fs);
    var order := MoveIn(names, Find(names, name), dir);
    var lst := Group(fs, name);
    MovedSchemataNames(fs, name, dir);
    forall s ensures Group(MoveSchemataOrder(fs, name, dir), s) == Group(fs, s) {
      LayoutGroups(fs, order, name, lst, s);
      if s !in order {
        forall i | 0 <= i < |fs| ensures !SchemataIs(s)(fs[i]) {}
        FilterNone(fs, SchemataIs(s));
      }
    }
  }

  /**
   * `moveSchemata(name, dir)` re-adds a permutation of the fields; the
   * schemata order becomes the moved one (a swap with the neighbour, see
   * `MoveInSwap`), every schemata keeps its fields in their order, and
   * the fields are grouped by schemata in the new order. A container
   * that keeps the structural rules gets exactly this order back.
   */
  lemma MoveSchemataSpec(fs: seq<Field>, name: string, dir: int)
    requires name in SchemataNames(fs) && (dir == -1 || dir == 1)
    ensures multiset(MoveSchemataOrder(fs, name, dir)) == multiset(fs)
    ensures SchemataNames(MoveSchemataOrder(fs, name, dir)) ==
      MoveIn(SchemataNames(fs), Find(SchemataNames(fs), name), dir)
    ensures forall s :: Group(MoveSchemataOrder(fs, name, dir), s) == Group(fs, s)
    ensures Grouped(MoveSchemataOrder(fs, name, dir), SchemataNames(MoveSchemataOrder(fs, name, dir)))
    ensures UniqueNames(fs) && WellFormed(fs) ==>
      AddAll([], MoveSchemataOrder(fs, name, dir)) == Success(MoveSchemataOrder(fs, name, dir))
  {
    var t := MoveSchemataOrder(fs, name, dir);
    MoveSchemataPermutes(fs, name, dir);
    MoveSchemataGroups(fs, name, dir);
    MovedSchemataNames(fs, name, dir);
    LayoutGrouped(fs, MoveIn(SchemataNames(fs), Find(SchemataNames(fs), name), dir), name, Group(fs, name));
    if UniqueNames(fs) && WellFormed(fs) {
      PermutationFields(fs, t);
      AddAllCopy(t);
    }
  }

  /** The moved list of `moveField(name, dir)` is a permutation of the schemata's fields, all of that schemata. */
  lemma MovedGroupRun(fs: seq<Field>, name: string, dir: int)
    requires name in Names(fs) && (dir == -1 || dir == 1)
    ensures multiset(MovedGroup(fs, name, dir)) == multiset(Group(fs, SchemataOf(fs, name)))
    ensures RunOf(MovedGroup(fs, name, dir), SchemataOf(fs, name))
  {
    var s0 := SchemataOf(fs, name);
    GroupIsRun(fs, s0);
    RunPermutation(Group(fs, s0), MovedGroup(fs, name, dir), s0);
  }

  /** The facts about the moved list of `moveField(name, dir)` that the rebuild needs. */
  lemma MovedGroupFacts(fs: seq<Field>, name: string, dir: int)
    requires name in Names(fs) && (dir == -1 || dir == 1)
    ensures Distinct(SchemataNames(fs)) && RunOf(MovedGroup(fs, name, dir), SchemataOf(fs, name))
    ensures forall i :: 0 <= i < |fs| ==> fs[i].schemata in SchemataNames(fs)
    ensures multiset(MovedGroup(fs, name, dir)) == multiset(Group(fs, SchemataOf(fs, name)))
    ensures PartsNonEmpty(fs, SchemataNames(fs), SchemataOf(fs, name), MovedGroup(fs, name, dir))
  {
    var s0 := SchemataOf(fs, name);
    var lst := MovedGroup(fs, name, dir);
    NamesOfFields(fs);
    MovedGroupRun(fs, name, dir);
    InOwnGroup(fs, Find(Names(fs), name));
    assert |lst| == |Group(fs, s0)| > 0 by {
      assert |multiset(lst)| == |multiset(Group(fs, s0))|;
    }
  }

  /** `moveField` re-adds a permutation of the fields and keeps the schemata order. */
  lemma MoveFieldPermutes(fs: seq<Field>, name: string, dir: int)
    requires name in Names(fs) && (dir == -1 || dir == 1)
    ensures multiset(MoveFieldOrder(fs, name, dir)) == multiset(fs)
    ensures SchemataNames(MoveFieldOrder(fs, name, dir)) == SchemataNames(fs)
  {
    MovedGroupFacts(fs, name, dir);
    LayoutPermutation(fs, SchemataNames(fs), SchemataOf(fs, name), MovedGroup(fs, name, dir));
    LayoutNames(fs, SchemataNames(fs), SchemataOf(fs, name), MovedGroup(fs, name, dir));
  }

  /** `moveField` changes the fields of the moved field's schemata only. */
  lemma MoveFieldGroups(fs: seq<Field>, name: string, dir: int)
    requires name in Names(fs) && (dir == -1 || dir == 1)
    ensures forall s :: Group(MoveFieldOrder(fs, name, dir), s) == (if s == SchemataOf(fs, name) then MovedGroup(fs, name, dir) else Group(fs, s))
  {
    var s0 := SchemataOf(fs, name);
    var lst := MovedGroup(fs, name, dir);
    var names := SchemataNames(fs);
    MovedGroupFacts(fs, name, dir);
    InOwnGroup(fs, Find(Names(fs), name));
    forall s ensures Group(MoveFieldOrder(fs, name, dir), s) == if s == s0 then lst else Group(fs, s) {
      LayoutGroups(fs, names, s0, lst, s);
      if s !in names {
        forall i | 0 <= i < |fs| ensures !SchemataIs(s)(fs[i]) {}
        FilterNone(fs, SchemataIs(s));
      }
    }
  }

  /**
   * `moveField(name, dir)` re-adds a permutation of the fields, grouped
   * schemata by schemata in `getSchemataNames` order; the schemata order
   * and the fields of every other schemata are kept, and
   * inside its own schemata the field is moved (a swap with its
   * neighbour, see `MoveInSwap`). A container that keeps the structural
   * rules gets exactly this order back.
   */
  lemma MoveFieldSpec(fs: seq<Field>, name: string, dir: int)
    requires name in Names(fs) && (dir == -1 || dir == 1)
    ensures multiset(MoveFieldOrder(fs, name, dir)) == multiset(fs)
    ensures SchemataNames(MoveFieldOrder(fs, name, dir)) == SchemataNames(fs)
    ensures forall s :: Group(MoveFieldOrder(fs, name, dir), s) == (if s == SchemataOf(fs, name) then MovedGroup(fs, name, dir) else Group(fs, s))
    ensures Grouped(MoveFieldOrder(fs, name, dir), SchemataNames(fs))
    ensures UniqueNames(fs) && WellFormed(fs) ==>
      AddAll([], MoveFieldOrder(fs, name, dir)) == Success(MoveFieldOrder(fs, name, dir))
  {
    MoveFieldPermutes(fs, name, dir);
    MoveFieldGroups(fs, name, dir);
    MovedGroupFacts(fs, name, dir);
    LayoutGrouped(fs, SchemataNames(fs), SchemataOf(fs, name), MovedGroup(fs, name, dir));
    if UniqueNames(fs) && WellFormed(fs) {
      PermutationFields(fs, MoveFieldOrder(fs, name, dir));
      AddAllCopy(MoveFieldOrder(fs, name, dir));
    }
  }
}
