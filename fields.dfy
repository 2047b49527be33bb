/**
 * Fields as the schema container sees them, and the ordered field
 * container itself as a value: a sequence of fields whose names are
 * unique. `Schemas.Schema.Fields()` is this value for a schema object;
 * the functions here say what adding, replacing and removing a field
 * does to it.
 */
module Fields {
  import opened Py
  import opened Seqs

  /** A registered layer: the name it is registered under and the object providing it. */
  type LayerEntry = (string, Value)

  /**
   * A field: its name, its type tag, the schemata (form tab) it belongs
   * to, its other attributes (`primary`, `relationship`, `isMetadata`,
   * `searchable`, `storage`, ...) and the layers registered on it, in
   * the order `registeredLayers()` lists them.
   */
  datatype Field = Field(
    name: string,
    kind: string,
    schemata: string,
    attrs: map<string, Value>,
    layers: seq<LayerEntry>)

  /** `getattr(field, a)` if the field has attribute `a`. */
  function Attr(f: Field, a: string): Option<Value>
  {
    if a == "type" then Some(Str(f.kind))
    else if a == "schemata" then Some(Str(f.schemata))
    else if a in f.attrs then Some(f.attrs[a])
    else None
  }

  /** `getattr(field, 'primary', False)` is true. */
  predicate IsPrimary(f: Field)
  {
    var v := Attr(f, "primary");
    v.Some? && Truthy(v.value)
  }

  /** `field.searchable` is present and true. */
  predicate IsSearchable(f: Field)
  {
    var v := Attr(f, "searchable");
    v.Some? && Truthy(v.value)
  }

  /** A field of type `reference` names its relationship with a non-empty `str` (a `unicode` one is refused). */
  predicate Qualified(f: Field)
  {
    f.kind != "reference" ||
    var r := Attr(f, "relationship");
    r.Some? && r.value.Str? && r.value.s != ""
  }

  /** `_validateOnAdd` refuses a reference field whose relationship is a `unicode` string. */
  lemma UnicodeRelationshipRefused(fs: seq<Field>, f: Field, u: string)
    requires f.kind == "reference" && Attr(f, "relationship") == Some(Unicode(u))
    ensures CheckAdd(fs, f).Fail?
  {
  }

  /** The names of `fs`, in order. */
  function Names(fs: seq<Field>): seq<string>
  {
    seq(|fs|, i requires 0 <= i < |fs| => fs[i].name)
  }

  ghost predicate UniqueNames(fs: seq<Field>)
  {
    Distinct(Names(fs))
  }

  /** `_fields.get(n)` for the container `fs`. */
  function Lookup(fs: seq<Field>, n: string): Option<Field>
  {
    if n in Names(fs) then Some(fs[Find(Names(fs), n)]) else None
  }

  /**
   * The structural rules `addField` enforces: at most one primary field,
   * and every reference field qualified.
   */
  ghost predicate WellFormed(fs: seq<Field>)
  {
    && (forall i, j :: 0 <= i < j < |fs| && IsPrimary(fs[i]) ==> !IsPrimary(fs[j]))
    && (forall i :: 0 <= i < |fs| ==> Qualified(fs[i]))
  }

  /** The position of the first primary field of `fs`, or `|fs|` if there is none. */
  function PrimaryAt(fs: seq<Field>): (k: nat)
    ensures k <= |fs|
    ensures k < |fs| ==> IsPrimary(fs[k])
    ensures forall j :: 0 <= j < k ==> !IsPrimary(fs[j])
  {
    if fs == [] || IsPrimary(fs[0]) then 0 else 1 + PrimaryAt(fs[1..])
  }

  /** `hasPrimary()`: the first primary field, if any. */
  function FirstPrimary(fs: seq<Field>): Option<Field>
  {
    var k := PrimaryAt(fs);
    if k < |fs| then Some(fs[k]) else None
  }

  /** `_validateOnAdd(f)` against the container `fs`. */
  function CheckAdd(fs: seq<Field>, f: Field): Outcome
  {
    if IsPrimary(f) && FirstPrimary(fs).Some? && FirstPrimary(fs).value.name != f.name then
      Fail(SchemaException)
    else if f.kind == "reference" && !Qualified(f) then
      Fail(ReferenceException)
    else
      Pass
  }

  /** The container after storing `f` under its name: in place if the name is present, else appended. */
  function Put(fs: seq<Field>, f: Field): seq<Field>
  {
    if f.name in Names(fs) then fs[Find(Names(fs), f.name) := f] else fs + [f]
  }

  /** `addField(f)`: check, then store. */
  function Add(fs: seq<Field>, f: Field): Result<seq<Field>>
  {
    match CheckAdd(fs, f)
    case Pass => Success(Put(fs, f))
    case Fail(e) => Failure(e)
  }

  /** `addField` for each of `gs` in turn, stopping at the first exception. */
  function AddAll(fs: seq<Field>, gs: seq<Field>): Result<seq<Field>>
  {
    if gs == [] then Success(fs)
    else
      match AddAll(fs, gs[..|gs| - 1])
      case Success(cur) => Add(cur, gs[|gs| - 1])
      case Failure(e) => Failure(e)
  }

  /** Storing each of `gs` in turn without the checks. */
  function PutAll(fs: seq<Field>, gs: seq<Field>): seq<Field>
  {
    if gs == [] then fs else Put(PutAll(fs, gs[..|gs| - 1]), gs[|gs| - 1])
  }

  /** `__delitem__(n)` on a container holding `n`; a container without it is returned as is. */
  function RemoveName(fs: seq<Field>, n: string): seq<Field>
  {
    if n in Names(fs) then
      var k := Find(Names(fs), n);
      fs[..k] + fs[k + 1..]
    else fs
  }

  /** `replaceField(n, f)`: `f` takes the place of the field named `n`. */
  function Replace(fs: seq<Field>, n: string, f: Field): seq<Field>
    requires n in Names(fs)
  {
    fs[Find(Names(fs), n) := f]
  }

  // ---------------------------------------------------------------------
  // Names and lookup

  lemma NamesAppend(fs: seq<Field>, gs: seq<Field>)
    ensures Names(fs + gs) == Names(fs) + Names(gs)
  {
  }

  lemma NamesUpdate(fs: seq<Field>, k: nat, f: Field)
    requires k < |fs|
    ensures Names(fs[k := f]) == Names(fs)[k := f.name]
  {
  }

  lemma NamesSlice(fs: seq<Field>, i: nat, j: nat)
    requires i <= j <= |fs|
    ensures Names(fs[i..j]) == Names(fs)[i..j]
  {
  }

  lemma UniqueSlice(fs: seq<Field>, i: nat, j: nat)
    requires UniqueNames(fs) && i <= j <= |fs|
    ensures UniqueNames(fs[i..j])
  {
    NamesSlice(fs, i, j);
    var ns := Names(fs[i..j]);
    forall a, b | 0 <= a < b < |ns| ensures ns[a] != ns[b] {
      assert ns[a] == Names(fs)[i + a] && ns[b] == Names(fs)[i + b];
    }
  }

  lemma UniqueNamesDistinct(fs: seq<Field>)
    requires UniqueNames(fs)
    ensures Distinct(fs)
  {
    forall i, j | 0 <= i < j < |fs| ensures fs[i] != fs[j] {
      assert Names(fs)[i] != Names(fs)[j];
    }
  }

  lemma InNames(fs: seq<Field>, k: nat)
    requires k < |fs|
    ensures fs[k].name in Names(fs)
  {
    assert Names(fs)[k] == fs[k].name;
  }

  /** In a container with unique names, the field at position `k` is the one stored under its name. */
  lemma LookupAt(fs: seq<Field>, k: nat)
    requires UniqueNames(fs) && k < |fs|
    ensures Lookup(fs, fs[k].name) == Some(fs[k])
  {
    InNames(fs, k);
    FindDistinct(Names(fs), k);
  }

  // ---------------------------------------------------------------------
  // Storing and removing

  /**
   * Storing keeps the names unique and behaves as a dictionary write:
   * afterwards `f` is found under its name and every other name finds
   * what it found before; a new name is appended to the order, an
   * existing one keeps its position.
   */
  lemma {:induction false} PutSpec(fs: seq<Field>, f: Field)
    requires UniqueNames(fs)
    ensures UniqueNames(Put(fs, f))
    ensures Names(Put(fs, f)) == if f.name in Names(fs) then Names(fs) else Names(fs) + [f.name]
    ensures Lookup(Put(fs, f), f.name) == Some(f)
    ensures forall n :: n != f.name ==> Lookup(Put(fs, f), n) == Lookup(fs, n)
  {
    var r := Put(fs, f);
    if f.name in Names(fs) {
      var k := Find(Names(fs), f.name);
      NamesUpdate(fs, k, f);
      assert Names(fs)[k := f.name] == Names(fs);
      LookupAt(r, k);
    } else {
      NamesAppend(fs, [f]);
      assert Names(r) == Names(fs) + [f.name];
      LookupAt(r, |fs|);
    }
    forall n | n != f.name ensures Lookup(r, n) == Lookup(fs, n) {
      if n in Names(fs) {
        var j := Find(Names(fs), n);
        LookupAt(r, j);
        LookupAt(fs, j);
      }
    }
  }

  /**
   * Removing a name drops exactly that field: the name is no longer
   * found, every other name finds what it found before, and the
   * remaining names keep their order.
   */
  lemma RemoveSpec(fs: seq<Field>, n: string)
    requires UniqueNames(fs)
    ensures UniqueNames(RemoveName(fs, n))
    ensures Names(RemoveName(fs, n)) == Filter(Names(fs), Other(n))
    ensures Lookup(RemoveName(fs, n), n) == None
    ensures forall m :: m != n ==> Lookup(RemoveName(fs, n), m) == Lookup(fs, m)
  {
    if n in Names(fs) {
      var k := Find(Names(fs), n);
      RemoveNames(fs, k);
      FilterOtherDistinct(Names(fs), k);
      forall m | m != n ensures Lookup(RemoveName(fs, n), m) == Lookup(fs, m) {
        RemoveLookup(fs, k, m);
      }
    } else {
      FilterAll(Names(fs), Other(n));
    }
  }

  /** Removing a present name drops the field at its position. */
  lemma RemoveNameAt(fs: seq<Field>, n: string, k: nat)
    requires n in Names(fs) && k == Find(Names(fs), n)
    ensures k < |fs| && RemoveName(fs, n) == fs[..k] + fs[k + 1..]
  {
  }

  lemma RemoveNames(fs: seq<Field>, k: nat)
    requires UniqueNames(fs) && k < |fs|
    ensures Names(fs[..k] + fs[k + 1..]) == Names(fs)[..k] + Names(fs)[k + 1..]
    ensures UniqueNames(fs[..k] + fs[k + 1..])
  {
    var r := fs[..k] + fs[k + 1..];
    var ns := Names(fs);
    NamesAppend(fs[..k], fs[k + 1..]);
    NamesSlice(fs, 0, k);
    NamesSlice(fs, k + 1, |fs|);
    forall i, j | 0 <= i < j < |r| ensures Names(r)[i] != Names(r)[j] {
      var i' := if i < k then i else i + 1;
      var j' := if j < k then j else j + 1;
      assert Names(r)[i] == ns[i'] && Names(r)[j] == ns[j'];
    }
  }

  lemma RemoveLookup(fs: seq<Field>, k: nat, m: string)
    requires UniqueNames(fs) && k < |fs| && m != fs[k].name
    ensures Lookup(fs[..k] + fs[k + 1..], m) == Lookup(fs, m)
  {
    var r := fs[..k] + fs[k + 1..];
    RemoveNames(fs, k);
    assert Names(r) == Names(fs)[..k] + Names(fs)[k + 1..];
    if m in Names(fs) {
      var j := Find(Names(fs), m);
      LookupAt(fs, j);
      var j' := if j < k then j else j - 1;
      assert r[j'] == fs[j];
      LookupAt(r, j');
    }
  }

  /**
   * `replaceField(n, f)` with a name that is `n` or new: the names stay
   * unique, `f` takes `n`'s position and is found under its name, `n` is
   * gone if it was renamed, and every other name finds what it found
   * before.
   */
  lemma ReplaceSpec(fs: seq<Field>, n: string, f: Field)
    requires UniqueNames(fs) && n in Names(fs) && (f.name == n || f.name !in Names(fs))
    ensures UniqueNames(Replace(fs, n, f))
    ensures Names(Replace(fs, n, f)) == Names(fs)[Find(Names(fs), n) := f.name]
    ensures Lookup(Replace(fs, n, f), f.name) == Some(f)
    ensures f.name != n ==> Lookup(Replace(fs, n, f), n) == None
    ensures forall m :: m != n && m != f.name ==> Lookup(Replace(fs, n, f), m) == Lookup(fs, m)
  {
    var k := Find(Names(fs), n);
    var r := Replace(fs, n, f);
    NamesUpdate(fs, k, f);
    var ns := Names(r);
    forall i, j | 0 <= i < j < |ns| ensures ns[i] != ns[j] {
      if i != k && j != k {
        assert ns[i] == Names(fs)[i] && ns[j] == Names(fs)[j];
      } else {
        var o := if i == k then j else i;
        assert ns[o] == Names(fs)[o] && Names(fs)[o] != n;
      }
    }
    LookupAt(r, k);
    forall m | m != n && m != f.name ensures Lookup(r, m) == Lookup(fs, m) {
      if m in Names(fs) {
        var j := Find(Names(fs), m);
        LookupAt(fs, j);
        LookupAt(r, j);
      } else {
        assert m !in ns;
      }
    }
  }

  /** In a well-formed container a primary field is the first one. */
  lemma PrimaryIsFirst(fs: seq<Field>, j: nat)
    requires WellFormed(fs) && j < |fs|
    ensures IsPrimary(fs[j]) ==> PrimaryAt(fs) == j
  {
  }

  /**
   * An `addField` that passes the checks keeps a well-formed container
   * well-formed: still at most one primary field, and every reference
   * field qualified.
   */
  lemma AddKeepsWellFormed(fs: seq<Field>, f: Field)
    requires UniqueNames(fs) && WellFormed(fs) && CheckAdd(fs, f) == Pass
    ensures WellFormed(Put(fs, f))
  {
    var r := Put(fs, f);
    var k := if f.name in Names(fs) then Find(Names(fs), f.name) else |fs|;
    assert forall i :: 0 <= i < |r| ==> r[i] == (if i == k then f else fs[i]);
    forall i, j | 0 <= i < j < |r| && IsPrimary(r[i]) ensures !IsPrimary(r[j]) {
      if i != k && j != k {
        assert r[i] == fs[i] && r[j] == fs[j];
      } else if i == k {
        if j < |fs| {
          assert r[j] == fs[j];
          PrimaryIsFirst(fs, j);
          assert Names(fs)[j] == fs[j].name;
        }
      } else {
        assert r[i] == fs[i];
        PrimaryIsFirst(fs, i);
        assert Names(fs)[i] == fs[i].name;
      }
    }
  }

  /** The checks only look at `f` and at the primary field of the container. */
  lemma CheckAddPass(fs: seq<Field>, f: Field)
    requires WellFormed(fs + [f])
    ensures CheckAdd(fs, f) == Pass
  {
    var all := fs + [f];
    assert Qualified(all[|fs|]);
    if IsPrimary(f) {
      forall j | 0 <= j < |fs| ensures !IsPrimary(fs[j]) {
        assert all[j] == fs[j] && all[|fs|] == f;
      }
    }
  }

  /**
   * Re-adding the fields of a well-formed container with unique names,
   * in order, to a container holding a prefix of it succeeds and appends
   * them. This is what `copy`, `__add__` with disjoint names and the
   * rebuild in `moveField`/`moveSchemata` rely on.
   */
  lemma {:induction false} AddAllPrefix(t: seq<Field>, m: nat, n: nat)
    requires m <= n <= |t| && UniqueNames(t)
    ensures AddAll(t[..m], t[m..n]).Success? ==> AddAll(t[..m], t[m..n]).value == t[..n]
    ensures WellFormed(t) ==> AddAll(t[..m], t[m..n]) == Success(t[..n])
  {
    var gs := t[m..n];
    if n == m {
      assert gs == [];
    } else {
      assert gs[..|gs| - 1] == t[m..n - 1];
      AddAllPrefix(t, m, n - 1);
      var x := t[n - 1];
      assert gs[|gs| - 1] == x;
      var cur := t[..n - 1];
      NamesSlice(t, 0, n - 1);
      forall j | 0 <= j < n - 1 ensures Names(cur)[j] != x.name {
        assert Names(cur)[j] == Names(t)[j] && x.name == Names(t)[n - 1];
      }
      assert t[..n] == cur + [x];
      if WellFormed(t) {
        assert WellFormed(cur + [x]) by {
          forall i | 0 <= i < n ensures (cur + [x])[i] == t[i] {}
        }
        CheckAddPass(cur, x);
      }
    }
  }

  /** `copy()`: re-adding every field of a well-formed container to an empty one gives it back. */
  lemma AddAllCopy(fs: seq<Field>)
    requires UniqueNames(fs) && WellFormed(fs)
    ensures AddAll([], fs) == Success(fs)
  {
    AddAllPrefix(fs, 0, |fs|);
    assert fs[..0] == [] && fs[0..|fs|] == fs && fs[..|fs|] == fs;
  }

  /** Adding without an exception stores every field: `AddAll` succeeds only with `PutAll`'s result. */
  lemma {:induction false} AddAllIsPutAll(fs: seq<Field>, gs: seq<Field>)
    requires AddAll(fs, gs).Success?
    ensures AddAll(fs, gs).value == PutAll(fs, gs)
  {
    if gs != [] {
      AddAllIsPutAll(fs, gs[..|gs| - 1]);
    }
  }

  lemma {:induction false} AddAllAppend(fs: seq<Field>, xs: seq<Field>, ys: seq<Field>)
    ensures AddAll(fs, xs + ys) ==
      match AddAll(fs, xs)
      case Success(cur) => AddAll(cur, ys)
      case Failure(e) => Failure(e)
  {
    if ys == [] {
      assert xs + ys == xs;
    } else {
      assert (xs + ys)[..|xs + ys| - 1] == xs + ys[..|ys| - 1];
      AddAllAppend(fs, xs, ys[..|ys| - 1]);
    }
  }

  /**
   * `A + B` when it does not raise: every name of `A` keeps its position,
   * the names of `B` that `A` lacks follow in `B`'s order, and a name
   * finds `B`'s field if `B` has it and `A`'s otherwise.
   */
  lemma PutAllSpec(fs: seq<Field>, gs: seq<Field>)
    requires UniqueNames(fs) && UniqueNames(gs)
    ensures UniqueNames(PutAll(fs, gs))
    ensures |PutAll(fs, gs)| >= |fs|
    ensures Names(PutAll(fs, gs))[..|fs|] == Names(fs)
    ensures Names(PutAll(fs, gs))[|fs|..] == Names(Filter(gs, Fresh(fs)))
    ensures forall n :: Lookup(PutAll(fs, gs), n) == if n in Names(gs) then Lookup(gs, n) else Lookup(fs, n)
  {
    PutAllNames(fs, gs);
    PutAllFresh(fs, gs);
    PutAllLookup(fs, gs);
  }

  /** Holds for a field whose name `fs` lacks. */
  function Fresh(fs: seq<Field>): Field -> bool
  {
    (g: Field) => g.name !in Names(fs)
  }

  /** The names `PutAll` appends are those of `gs` that `fs` lacks, in `gs`'s order. */
  lemma {:induction false} PutAllFresh(fs: seq<Field>, gs: seq<Field>)
    requires UniqueNames(fs) && UniqueNames(gs)
    ensures |PutAll(fs, gs)| >= |fs|
    ensures Names(PutAll(fs, gs))[|fs|..] == Names(Filter(gs, Fresh(fs)))
  {
    PutAllNames(fs, gs);
    if gs != [] {
      var init, x := gs[..|gs| - 1], gs[|gs| - 1];
      NamesSnoc(gs);
      PutAllFresh(fs, init);
      PutAllNames(fs, init);
      var cur := PutAll(fs, init);
      assert Names(cur) == Names(cur)[..|fs|] + Names(cur)[|fs|..];
      assert gs == init + [x];
      forall i | 0 <= i < |init| ensures Names(init)[i] != x.name {
        assert Names(init)[i] == Names(gs)[i] && x.name == Names(gs)[|gs| - 1];
      }
      FreshStep(fs, cur, init, x);
    }
  }

  /** One step of `PutAllFresh`: storing a field whose name no earlier field of `gs` had. */
  lemma FreshStep(fs: seq<Field>, cur: seq<Field>, init: seq<Field>, x: Field)
    requires UniqueNames(cur) && x.name !in Names(init)
    requires Names(cur) == Names(fs) + Names(Filter(init, Fresh(fs)))
    ensures Names(Put(cur, x)) == Names(fs) + Names(Filter(init + [x], Fresh(fs)))
  {
    var prev := Filter(init, Fresh(fs));
    PutSpec(cur, x);
    FilterSnoc(init, x, Fresh(fs));
    if x.name in Names(cur) {
      if x.name !in Names(fs) {
        assert x.name in Names(prev);
        FilterName(init, Fresh(fs), x.name);
        assert false;
      }
      assert Filter(init + [x], Fresh(fs)) == prev;
    } else {
      assert Filter(init + [x], Fresh(fs)) == prev + [x];
      NamesAppend(prev, [x]);
    }
  }

  /** A name of a filtered container is a name of the container. */
  lemma FilterName(gs: seq<Field>, p: Field -> bool, n: string)
    requires n in Names(Filter(gs, p))
    ensures n in Names(gs)
  {
    FilterIn(gs, p);
    var j :| 0 <= j < |Filter(gs, p)| && Filter(gs, p)[j].name == n;
    var i :| 0 <= i < |gs| && gs[i] == Filter(gs, p)[j];
    assert Names(gs)[i] == n;
  }

  lemma {:induction false} PutAllNames(fs: seq<Field>, gs: seq<Field>)
    requires UniqueNames(fs)
    ensures UniqueNames(PutAll(fs, gs))
    ensures |PutAll(fs, gs)| >= |fs|
    ensures Names(PutAll(fs, gs))[..|fs|] == Names(fs)
  {
    if gs != [] {
      var init, x := gs[..|gs| - 1], gs[|gs| - 1];
      PutAllNames(fs, init);
      var cur := PutAll(fs, init);
      PutSpec(cur, x);
      assert Names(PutAll(fs, gs))[..|fs|] == Names(cur)[..|fs|];
    }
  }

  lemma PutAllLookup(fs: seq<Field>, gs: seq<Field>)
    requires UniqueNames(fs) && UniqueNames(gs)
    ensures forall n :: Lookup(PutAll(fs, gs), n) == if n in Names(gs) then Lookup(gs, n) else Lookup(fs, n)
  {
    forall n ensures Lookup(PutAll(fs, gs), n) == if n in Names(gs) then Lookup(gs, n) else Lookup(fs, n) {
      PutAllLookupAt(fs, gs, n);
    }
  }

  lemma {:induction false} PutAllLookupAt(fs: seq<Field>, gs: seq<Field>, n: string)
    requires UniqueNames(fs) && UniqueNames(gs)
    ensures Lookup(PutAll(fs, gs), n) == if n in Names(gs) then Lookup(gs, n) else Lookup(fs, n)
  {
    if gs != [] {
      var init, x := gs[..|gs| - 1], gs[|gs| - 1];
      NamesSnoc(gs);
      PutAllLookupAt(fs, init, n);
      PutAllNames(fs, init);
      PutLookup(PutAll(fs, init), x, n);
      if n == x.name {
        LookupAt(gs, |gs| - 1);
      } else if n in Names(init) {
        var j := Find(Names(init), n);
        LookupAt(init, j);
        LookupAt(gs, j);
      }
    }
  }

  lemma NamesSnoc(gs: seq<Field>)
    requires gs != []
    ensures Names(gs) == Names(gs[..|gs| - 1]) + [gs[|gs| - 1].name]
    ensures UniqueNames(gs) ==> UniqueNames(gs[..|gs| - 1])
  {
    NamesSlice(gs, 0, |gs| - 1);
  }

  /** What a name finds after one store. */
  lemma PutLookup(fs: seq<Field>, f: Field, n: string)
    requires UniqueNames(fs)
    ensures Lookup(Put(fs, f), n) == if n == f.name then Some(f) else Lookup(fs, n)
  {
    PutSpec(fs, f);
  }

  /** `A + B` with disjoint names and no rule broken is `A` followed by `B`. */
  lemma ConcatDisjoint(xs: seq<Field>, ys: seq<Field>)
    requires UniqueNames(xs + ys) && WellFormed(xs + ys)
    ensures AddAll([], xs + ys) == Success(xs + ys)
    ensures |xs + ys| == |xs| + |ys|
  {
    AddAllCopy(xs + ys);
  }

  /**
   * `A + B` raises when each side has a primary field and they have
   * different names (and `B` does not replace `A`'s primary field).
   */
  lemma ConcatTwoPrimaries(xs: seq<Field>, ys: seq<Field>, i: nat, j: nat)
    requires UniqueNames(xs) && WellFormed(xs) && UniqueNames(ys) && WellFormed(ys)
    requires i < |xs| && IsPrimary(xs[i]) && j < |ys| && IsPrimary(ys[j])
    requires xs[i].name != ys[j].name && xs[i].name !in Names(ys)
    ensures AddAll([], xs + ys).Failure?
  {
    AddAllCopy(xs);
    AddAllAppend([], xs, ys);
    SecondPrimaryFails(xs, ys, i, j);
  }

  lemma SecondPrimaryFails(xs: seq<Field>, ys: seq<Field>, i: nat, j: nat)
    requires UniqueNames(xs) && WellFormed(xs) && UniqueNames(ys) && WellFormed(ys)
    requires i < |xs| && IsPrimary(xs[i]) && j < |ys| && IsPrimary(ys[j])
    requires xs[i].name != ys[j].name && xs[i].name !in Names(ys)
    ensures AddAll(xs, ys).Failure?
  {
    SecondPrimaryRaises(xs, ys, i, j);
    RaisesAt(xs, ys, j);
  }

  /** A series raises if the check of `ys[j]` fails once the fields before it are stored. */
  lemma RaisesAt(fs: seq<Field>, ys: seq<Field>, j: nat)
    requires j < |ys|
    requires AddAll(fs, ys[..j]).Success? ==> CheckAdd(PutAll(fs, ys[..j]), ys[j]).Fail?
    ensures AddAll(fs, ys).Failure?
  {
    var pre, y := ys[..j], ys[j];
    if AddAll(fs, pre).Success? {
      AddAllIsPutAll(fs, pre);
      SnocRaises(fs, pre, y);
    } else {
      AddAllFailPrefix(fs, pre, [y]);
    }
    assert ys[..j + 1] == pre + [y];
    AddAllFailsFrom(fs, ys, j + 1);
  }

  /** A series whose next check fails raises. */
  lemma SnocRaises(fs: seq<Field>, xs: seq<Field>, y: Field)
    requires AddAll(fs, xs).Success? && CheckAdd(AddAll(fs, xs).value, y).Fail?
    ensures AddAll(fs, xs + [y]).Failure?
  {
    AddAllSnoc(fs, xs, y);
  }

  /** A series that raises on a prefix raises. */
  lemma AddAllFailsFrom(fs: seq<Field>, ys: seq<Field>, k: nat)
    requires k <= |ys| && AddAll(fs, ys[..k]).Failure?
    ensures AddAll(fs, ys) == AddAll(fs, ys[..k])
  {
    assert ys == ys[..k] + ys[k..];
    AddAllFailPrefix(fs, ys[..k], ys[k..]);
  }

  lemma AddAllSingle(fs: seq<Field>, f: Field)
    ensures AddAll(fs, [f]) == Add(fs, f)
  {
    assert [f][..0] == [];
  }

  /** Once an `addField` raises, the rest of the series is not reached. */
  lemma AddAllFailPrefix(fs: seq<Field>, xs: seq<Field>, ys: seq<Field>)
    requires AddAll(fs, xs).Failure?
    ensures AddAll(fs, xs + ys) == AddAll(fs, xs)
  {
    AddAllAppend(fs, xs, ys);
  }

  /** One more `addField` in a series. */
  lemma AddAllSnoc(fs: seq<Field>, xs: seq<Field>, y: Field)
    ensures AddAll(fs, xs + [y]) == match AddAll(fs, xs) case Success(cur) => Add(cur, y) case Failure(e) => Failure(e)
  {
    assert (xs + [y])[..|xs|] == xs;
  }

  /**
   * The container a series of `addField` calls leaves behind: all of
   * `gs` stored if none raises, otherwise what was stored before the
   * first call that raised.
   */
  function Reached(fs: seq<Field>, gs: seq<Field>): seq<Field>
  {
    if gs == [] then fs
    else
      match AddAll(fs, gs[..|gs| - 1])
      case Success(cur) => (match Add(cur, gs[|gs| - 1]) case Success(next) => next case Failure(_) => cur)
      case Failure(_) => Reached(fs, gs[..|gs| - 1])
  }

  /** A series that raises nothing leaves what `AddAll` computes. */
  lemma ReachedSuccess(fs: seq<Field>, gs: seq<Field>)
    requires AddAll(fs, gs).Success?
    ensures Reached(fs, gs) == AddAll(fs, gs).value
  {
  }

  /** A series stops at the first call that raises: what was stored before it stays, nothing after it is stored. */
  lemma {:induction false} ReachedStop(fs: seq<Field>, xs: seq<Field>, y: Field, ys: seq<Field>)
    requires AddAll(fs, xs).Success? && Add(AddAll(fs, xs).value, y).Failure?
    ensures Reached(fs, xs + [y] + ys) == AddAll(fs, xs).value
    ensures AddAll(fs, xs + [y] + ys) == Add(AddAll(fs, xs).value, y)
    decreases |ys|
  {
    AddAllSnoc(fs, xs, y);
    if ys == [] {
      assert xs + [y] + ys == xs + [y];
      assert (xs + [y])[..|xs|] == xs;
    } else {
      var init := ys[..|ys| - 1];
      assert (xs + [y] + ys)[..|xs + [y] + ys| - 1] == xs + [y] + init;
      ReachedStop(fs, xs, y, init);
      AddAllFailPrefix(fs, xs + [y], ys);
    }
  }

  lemma SecondPrimaryRaises(xs: seq<Field>, ys: seq<Field>, i: nat, j: nat)
    requires UniqueNames(xs) && WellFormed(xs) && UniqueNames(ys) && WellFormed(ys)
    requires i < |xs| && IsPrimary(xs[i]) && j < |ys| && IsPrimary(ys[j])
    requires xs[i].name != ys[j].name && xs[i].name !in Names(ys)
    ensures CheckAdd(PutAll(xs, ys[..j]), ys[j]) == Fail(SchemaException)
  {
    var pre := ys[..j];
    NamesSlice(ys, 0, j);
    UniqueSlice(ys, 0, j);
    assert ys[0..j] == pre;
    forall a | 0 <= a < j ensures Names(pre)[a] != xs[i].name && !IsPrimary(pre[a]) {
      assert Names(pre)[a] == Names(ys)[a] && pre[a] == ys[a];
    }
    forall b | 0 <= b < |xs| && b != i ensures !IsPrimary(xs[b]) {
      if b < i {
        assert IsPrimary(xs[i]);
      }
    }
    PrimaryOfPut(xs, pre, i);
  }

  /**
   * Storing fields none of which is primary, and none of which replaces
   * the only primary field, leaves that field the primary one.
   */
  lemma PrimaryOfPut(fs: seq<Field>, gs: seq<Field>, i: nat)
    requires UniqueNames(fs) && UniqueNames(gs) && i < |fs| && fs[i].name !in Names(gs)
    requires IsPrimary(fs[i]) && forall b :: 0 <= b < |fs| && b != i ==> !IsPrimary(fs[b])
    requires forall a :: 0 <= a < |gs| ==> !IsPrimary(gs[a])
    ensures FirstPrimary(PutAll(fs, gs)) == Some(fs[i])
  {
    var cur := PutAll(fs, gs);
    KeptByPutAll(fs, gs, i);
    var q :| 0 <= q < |cur| && cur[q] == fs[i];
    PutAllFrom(fs, gs);
    forall c | 0 <= c < |cur| ensures IsPrimary(cur[c]) ==> cur[c] == fs[i] {
      if cur[c] !in gs {
        var b :| 0 <= b < |fs| && fs[b] == cur[c];
      }
    }
  }

  /** A field whose name none of the stored fields has stays in the container. */
  lemma KeptByPutAll(fs: seq<Field>, gs: seq<Field>, i: nat)
    requires UniqueNames(fs) && UniqueNames(gs) && i < |fs| && fs[i].name !in Names(gs)
    ensures fs[i] in PutAll(fs, gs)
  {
    PutAllSpec(fs, gs);
    LookupAt(fs, i);
    var cur := PutAll(fs, gs);
    assert Lookup(cur, fs[i].name) == Some(fs[i]);
    var q := Find(Names(cur), fs[i].name);
    assert cur[q] == fs[i];
  }

  /** Every field of the container after a series of stores was in it before or was stored. */
  lemma {:induction false} PutAllFrom(fs: seq<Field>, gs: seq<Field>)
    ensures forall c :: 0 <= c < |PutAll(fs, gs)| ==> PutAll(fs, gs)[c] in fs || PutAll(fs, gs)[c] in gs
  {
    if gs != [] {
      var init, x := gs[..|gs| - 1], gs[|gs| - 1];
      PutAllFrom(fs, init);
      var cur := PutAll(fs, init);
      forall c | 0 <= c < |cur| ensures cur[c] in gs || cur[c] in fs {
        if cur[c] in init {
          var a :| 0 <= a < |init| && init[a] == cur[c];
          assert gs[a] == init[a];
        }
      }
    }
  }
}
