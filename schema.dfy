/**
 * The schema objects: `Schemata`, `BasicSchema`, `Schema`,
 * `ManagedSchema` and `MetadataSchema` as one class whose `kind` says
 * which of them an object is. The class keeps the list of names and the
 * dictionary from name to field that the methods update in place, the
 * properties and the layer registry; `Fields()` is the ordered field
 * sequence that the functions of `Fields`, `Arrange`, `Queries` and
 * `Layers` describe.
 */
module Schemas {
  import opened Py
  import opened Seqs
  import opened Fields
  import opened Arrange
  import opened Layers
  import opened Queries

  /** The Python class of a schema object. */
  datatype Kind = SchemataKind | BasicSchemaKind | SchemaKind | ManagedSchemaKind | MetadataSchemaKind
  {
    /** `Schema` and its subclasses are layer containers. */
    predicate HasLayers()
    {
      this == SchemaKind || this == ManagedSchemaKind || this == MetadataSchemaKind
    }
  }

  // ---------------------------------------------------------------------
  // The container: a name list and a dictionary kept in step

  /** `_names` lists every key of `_fields` once, and each field is stored under its own name. */
  ghost predicate Synced(names: seq<string>, fields: map<string, Field>)
  {
    && Distinct(names)
    && (forall n :: n in fields <==> n in names)
    && (forall n :: n in fields ==> fields[n].name == n)
  }

  /** `fields()`: the stored fields in the order of `_names`. */
  function FieldsOf(names: seq<string>, fields: map<string, Field>): (r: seq<Field>)
    requires Synced(names, fields)
    ensures Names(r) == names && UniqueNames(r)
  {
    seq(|names|, i requires 0 <= i < |names| && names[i] in fields => fields[names[i]])
  }

  lemma FieldsAt(names: seq<string>, fields: map<string, Field>, j: nat)
    requires Synced(names, fields) && j < |names|
    ensures names[j] in fields && FieldsOf(names, fields)[j] == fields[names[j]]
  {
  }

  /**
   * `addField`'s update (a new name is appended, the field stored under
   * its name) keeps the container in step and stores the field as
   * `Put` says.
   */
  lemma StoreSpec(names: seq<string>, fields: map<string, Field>, g: Field, names': seq<string>)
    requires Synced(names, fields)
    requires names' == if g.name in names then names else names + [g.name]
    ensures Synced(names', fields[g.name := g])
    ensures FieldsOf(names', fields[g.name := g]) == Put(FieldsOf(names, fields), g)
  {
    var fs := FieldsOf(names, fields);
    StoreSynced(names, fields, g, names');
    var r := FieldsOf(names', fields[g.name := g]);
    if g.name in names {
      var k := Find(names, g.name);
      forall i | 0 <= i < |r| ensures r[i] == fs[k := g][i] {
        StoreAt(names, fields, g, names', i);
        FindDistinct(names, i);
      }
      assert r == fs[k := g];
    } else {
      forall i | 0 <= i < |r| ensures r[i] == (fs + [g])[i] {
        StoreAt(names, fields, g, names', i);
      }
      assert r == fs + [g];
    }
  }

  lemma StoreSynced(names: seq<string>, fields: map<string, Field>, g: Field, names': seq<string>)
    requires Synced(names, fields)
    requires names' == if g.name in names then names else names + [g.name]
    ensures Synced(names', fields[g.name := g])
  {
    if g.name !in names {
      DistinctSnoc(names, g.name);
    }
  }

  /** After `addField`'s update, the position of the name holds the new field and every other position its old field. */
  lemma StoreAt(names: seq<string>, fields: map<string, Field>, g: Field, names': seq<string>, i: nat)
    requires Synced(names, fields)
    requires names' == if g.name in names then names else names + [g.name]
    requires i < |names'|
    ensures Synced(names', fields[g.name := g])
    ensures FieldsOf(names', fields[g.name := g])[i] ==
      if i < |names| && names[i] != g.name then FieldsOf(names, fields)[i] else g
  {
    StoreSynced(names, fields, g, names');
    FieldsAt(names', fields[g.name := g], i);
    if i < |names| {
      FieldsAt(names, fields, i);
    }
  }

  /** `__delitem__`'s update (the key and the first occurrence of the name dropped) removes the field as `RemoveName` says. */
  lemma DropSpec(names: seq<string>, fields: map<string, Field>, n: string)
    requires Synced(names, fields) && n in names
    ensures Synced(Delete(names, Find(names, n)), fields - {n})
    ensures FieldsOf(Delete(names, Find(names, n)), fields - {n}) == RemoveName(FieldsOf(names, fields), n)
  {
    var k := Find(names, n);
    DropSynced(names, fields, n);
    var fs := FieldsOf(names, fields);
    var r := FieldsOf(Delete(names, k), fields - {n});
    var want := fs[..k] + fs[k + 1..];
    forall i | 0 <= i < |r| ensures r[i] == want[i] {
      DropAt(names, fields, n, i);
      if i < k {
        assert want[i] == fs[..k][i];
      } else {
        assert want[i] == fs[k + 1..][i - k];
      }
    }
    assert r == want;
    RemoveNameAt(fs, n, k);
  }

  lemma DropSynced(names: seq<string>, fields: map<string, Field>, n: string)
    requires Synced(names, fields) && n in names
    ensures Synced(Delete(names, Find(names, n)), fields - {n})
  {
    DistinctDelete(names, Find(names, n));
  }

  /** After `__delitem__(n)`, the fields before `n` stay where they were and the ones after it move up one. */
  lemma DropAt(names: seq<string>, fields: map<string, Field>, n: string, i: nat)
    requires Synced(names, fields) && n in names && i < |names| - 1
    ensures Synced(Delete(names, Find(names, n)), fields - {n})
    ensures FieldsOf(Delete(names, Find(names, n)), fields - {n})[i] ==
      FieldsOf(names, fields)[if i < Find(names, n) then i else i + 1]
  {
    var k := Find(names, n);
    DropSynced(names, fields, n);
    var names' := Delete(names, k);
    var j := if i < k then i else i + 1;
    assert names'[i] == names[j];
    FieldsAt(names', fields - {n}, i);
    FieldsAt(names, fields, j);
  }

  /** `replaceField`'s update keeps the container in step when the new name is the old one or fresh, and replaces as `Replace` says. */
  lemma SwapSpec(names: seq<string>, fields: map<string, Field>, n: string, g: Field)
    requires Synced(names, fields) && n in names && (g.name == n || g.name !in names)
    ensures var k := Find(names, n);
      Synced(names[k := g.name], (fields - {n})[g.name := g]) &&
      FieldsOf(names[k := g.name], (fields - {n})[g.name := g]) == Replace(FieldsOf(names, fields), n, g)
  {
    var k := Find(names, n);
    var names' := names[k := g.name];
    var fields' := (fields - {n})[g.name := g];
    SwapSynced(names, fields, n, g);
    var fs := FieldsOf(names, fields);
    var r := FieldsOf(names', fields');
    forall i | 0 <= i < |r| ensures r[i] == fs[k := g][i] {
      SwapAt(names, fields, n, g, i);
    }
    assert r == fs[k := g];
  }

  lemma SwapSynced(names: seq<string>, fields: map<string, Field>, n: string, g: Field)
    requires Synced(names, fields) && n in names && (g.name == n || g.name !in names)
    ensures Synced(names[Find(names, n) := g.name], (fields - {n})[g.name := g])
  {
    var k := Find(names, n);
    var names' := names[k := g.name];
    var fields' := (fields - {n})[g.name := g];
    DistinctSplit(names, k);
    assert Distinct(names') by {
      forall i, j | 0 <= i < j < |names'| ensures names'[i] != names'[j] {
        if i != k && j != k {
        } else {
          var o := if i == k then j else i;
          assert names'[o] == names[o] && names[o] != n;
        }
      }
    }
    assert names'[k] == g.name;
    forall m ensures m in fields' <==> m in names' {
      if m in names && m != n {
        var j := Find(names, m);
        assert names'[j] == m;
      }
      if m in names' && m != g.name {
        var j :| 0 <= j < |names'| && names'[j] == m;
        assert j != k && names[j] == m && names[k] == n;
        assert m != n && m in fields;
      }
    }
    assert forall m | m in fields' :: fields'[m].name == m;
  }

  /** After `replaceField`'s update, the position of `n` holds the new field and every other position its old field. */
  lemma SwapAt(names: seq<string>, fields: map<string, Field>, n: string, g: Field, i: nat)
    requires Synced(names, fields) && n in names && (g.name == n || g.name !in names) && i < |names|
    ensures Synced(names[Find(names, n) := g.name], (fields - {n})[g.name := g])
    ensures FieldsOf(names[Find(names, n) := g.name], (fields - {n})[g.name := g])[i] ==
      if i == Find(names, n) then g else FieldsOf(names, fields)[i]
  {
    var k := Find(names, n);
    var names' := names[k := g.name];
    var fields' := (fields - {n})[g.name := g];
    SwapSynced(names, fields, n, g);
    FieldsAt(names', fields', i);
    if i != k {
      DistinctSplit(names, k);
      assert names[i] != n;
      FieldsAt(names, fields, i);
    }
  }

  /**
   * `replaceField` as written, given a new name that another field
   * already has: replacing `a` in `[a, b]` by a field `f` named like `b`
   * leaves that name twice in `_names` and only `f` in `_fields`, so `b`
   * is lost and the name list no longer matches the dictionary.
   */
  lemma ReplaceCollision(a: Field, b: Field, f: Field)
    requires a.name != b.name && f.name == b.name && f != b
    ensures var names := [a.name, b.name];
      var fields := map[a.name := a, b.name := b];
      && Synced(names, fields)
      && Find(names, a.name) == 0
      && names[0 := f.name] == [b.name, b.name]
      && (fields - {a.name})[f.name := f] == map[b.name := f]
      && !Synced(names[0 := f.name], (fields - {a.name})[f.name := f])
  {
    var names := [a.name, b.name];
    var fields := map[a.name := a, b.name := b];
    var fields' := (fields - {a.name})[f.name := f];
    assert fields'.Keys == {b.name};
    assert fields' == map[b.name := f];
    var names' := names[0 := f.name];
    assert names'[0] == names'[1];
  }

  // ---------------------------------------------------------------------
  // What the kinds add

  /** `SchemaLayerContainer.__init__`: a truthy `marshall` property is registered as a layer. */
  function InitialLayers(kind: Kind, props: map<string, Value>): seq<LayerEntry>
  {
    if kind.HasLayers() && "marshall" in props && Truthy(props["marshall"]) then [("marshall", props["marshall"])] else []
  }

  /**
   * `MetadataSchema.addField`: the field is marked as metadata, stored
   * in `storage` (the `MetadataStorage` created for the call), moved to
   * schemata `metadata`, generated in mode `mVc`, and the storage is
   * registered on it as layer `storage`.
   */
  function AsMetadata(f: Field, storage: Value): (r: Field)
    ensures r.name == f.name && r.kind == f.kind && r.schemata == "metadata"
    ensures Attr(r, "isMetadata") == Some(Int(1)) && Attr(r, "storage") == Some(storage) && Attr(r, "generateMode") == Some(Str("mVc"))
    ensures forall a :: a !in {"isMetadata", "storage", "generateMode", "schemata"} ==> Attr(r, a) == Attr(f, a)
    ensures LayerLookup(r.layers, "storage") == Some(storage)
  {
    var attrs := f.attrs["isMetadata" := Int(1)]["storage" := storage]["generateMode" := Str("mVc")];
    var layers := RegisterLayer(f.layers, "storage", storage);
    RegisterFinds(f.layers, "storage", storage);
    Field(f.name, f.kind, "metadata", attrs, layers)
  }

  /** The field an `addField` of a schema of kind `kind` checks and stores. */
  function Prepared(kind: Kind, f: Field, storage: Value): Field
  {
    if kind == MetadataSchemaKind then AsMetadata(f, storage) else f
  }

  /** The fields a series of `addField` calls stores; the k-th call of a `MetadataSchema` uses storage `storage(k)`. */
  function PrepareAll(kind: Kind, gs: seq<Field>, storage: nat -> Value): (r: seq<Field>)
    ensures |r| == |gs|
    ensures kind != MetadataSchemaKind ==> r == gs
  {
    if kind != MetadataSchemaKind then gs
    else seq(|gs|, k requires 0 <= k < |gs| => Prepared(kind, gs[k], storage(k)))
  }

  /** No storage: the fields a non-metadata schema adds are not marked. */
  function NoStorage(k: nat): Value
  {
    NoneValue
  }

  /** The outcome of a series of `addField` calls: the first exception, if any. */
  function OutcomeOf(res: Result<seq<Field>>): Outcome
  {
    match res
    case Success(_) => Pass
    case Failure(e) => Fail(e)
  }

  /** A MetadataSchema stores the checked field: the marking changes neither the primary flag nor the relationship. */
  lemma MetadataKeepsChecks(fs: seq<Field>, f: Field, storage: Value)
    ensures IsPrimary(AsMetadata(f, storage)) == IsPrimary(f)
    ensures Qualified(AsMetadata(f, storage)) == Qualified(f)
    ensures CheckAdd(fs, AsMetadata(f, storage)) == CheckAdd(fs, f)
  {
  }

  // ---------------------------------------------------------------------
  // Construction arguments

  /**
   * The positional arguments of `BasicSchema(*args)`: none, a list (or
   * tuple) of fields first, or the fields themselves.
   */
  datatype Positional = NoArgs | FieldList(items: seq<Field>) | FieldArgs(items: seq<Field>)

  /**
   * The fields the constructor adds, as written: for fields passed one by
   * one, the loop adds the first argument once per argument.
   */
  function AddedAsWritten(args: Positional): (r: seq<Field>)
    ensures args.FieldArgs? ==> |r| == |args.items| && forall i :: 0 <= i < |r| ==> r[i] == args.items[0]
  {
    match args
    case NoArgs => []
    case FieldList(items) => items
    case FieldArgs(items) => seq(|items|, i requires 0 <= i < |items| => items[0])
  }

  /** The fields the constructor evidently means to add: the ones passed, in order. */
  function Added(args: Positional): seq<Field>
  {
    match args
    case NoArgs => []
    case FieldList(items) => items
    case FieldArgs(items) => items
  }

  /**
   * Two fields passed one by one: as written the schema ends up with the
   * first field only; meant is both.
   */
  lemma PositionalFieldsLost(a: Field, b: Field)
    requires a.name != b.name && !IsPrimary(a) && !IsPrimary(b) && Qualified(a) && Qualified(b)
    ensures AddAll([], AddedAsWritten(FieldArgs([a, b]))) == Success([a])
    ensures AddAll([], Added(FieldArgs([a, b]))) == Success([a, b])
  {
    var w := AddedAsWritten(FieldArgs([a, b]));
    assert w == [a] + [a];
    AddAllSnoc([], [a], a);
    AddAllSingle([], a);
    assert Put([], a) == [a];
    assert Names([a]) == [a.name] && Find(Names([a]), a.name) == 0;
    assert Put([a], a) == [a];
    assert [a] + [b] == [a, b];
    AddAllSnoc([], [a], b);
    assert Put([a], b) == [a, b];
  }

  /**
   * Meant: every positional field is added in order, so a container
   * that keeps the structural rules is built exactly.
   */
  lemma AddedSpec(args: Positional)
    requires UniqueNames(Added(args)) && WellFormed(Added(args))
    ensures AddAll([], Added(args)) == Success(Added(args))
    ensures !args.NoArgs? ==> Added(args) == args.items
  {
    AddAllCopy(Added(args));
  }

  // ---------------------------------------------------------------------
  // Facts the schema operations rely on

  /** The rebuild of the first `i` schemata is a prefix of the whole rebuild. */
  lemma {:induction false} LayoutPrefix(fs: seq<Field>, order: seq<string>, s0: string, lst: seq<Field>, i: nat)
    requires i <= |order|
    ensures Layout(fs, order[..i], s0, lst) <= Layout(fs, order, s0, lst)
    decreases |order|
  {
    if i < |order| {
      var init := order[..|order| - 1];
      assert init[..i] == order[..i];
      LayoutPrefix(fs, init, s0, lst, i);
    } else {
      assert order[..i] == order;
    }
  }

  /** The rebuild of the first `i + 1` schemata adds the part of schemata `i`. */
  lemma LayoutSnoc(fs: seq<Field>, order: seq<string>, s0: string, lst: seq<Field>, i: nat)
    requires i < |order|
    ensures Layout(fs, order[..i + 1], s0, lst) == Layout(fs, order[..i], s0, lst) + Part(fs, order[i], s0, lst)
  {
    assert order[..i + 1][..i] == order[..i];
  }

  /** Deleting the field at the junction of a container with unique names. */
  lemma RemoveAtJunction(xs: seq<Field>, y: Field, zs: seq<Field>)
    requires UniqueNames(xs + [y] + zs)
    ensures RemoveName(xs + [y] + zs, y.name) == xs + zs
  {
    var all := xs + [y] + zs;
    assert Names(all)[|xs|] == y.name;
    FindDistinct(Names(all), |xs|);
    assert all[..|xs|] == xs && all[|xs| + 1..] == zs;
  }

  /** The test `field.schemata != s`, as a function value. */
  function NotSchemata(s: string): Field -> bool
  {
    (f: Field) => f.schemata != s
  }

  /** `getSchemataFields(s)`: exactly the fields of schemata `s`, in the container's order. */
  lemma GroupSpec(fs: seq<Field>, s: string)
    requires UniqueNames(fs)
    ensures forall f :: f in Group(fs, s) <==> f in fs && f.schemata == s
    ensures forall i, j :: 0 <= i < j < |Group(fs, s)| ==> Find(fs, Group(fs, s)[i]) < Find(fs, Group(fs, s)[j])
  {
    UniqueNamesDistinct(fs);
    FilterIn(fs, SchemataIs(s));
    FilterOrdered(fs, SchemataIs(s));
    forall f ensures f in Group(fs, s) <==> f in fs && f.schemata == s {
      if f in fs {
        var i :| 0 <= i < |fs| && fs[i] == f;
        assert SchemataIs(s)(fs[i]) == (f.schemata == s);
      }
      if f in Group(fs, s) {
        var i :| 0 <= i < |Group(fs, s)| && Group(fs, s)[i] == f;
        assert SchemataIs(s)(Group(fs, s)[i]);
      }
    }
  }

  /**
   * `delSchemata(s)` keeps exactly the fields of the other schemata, in
   * their order, so `s` is no longer a schemata name.
   */
  lemma DelSchemataSpec(fs: seq<Field>, s: string)
    ensures forall f :: f in Filter(fs, NotSchemata(s)) <==> f in fs && f.schemata != s
    ensures s !in SchemataNames(Filter(fs, NotSchemata(s)))
  {
    var r := Filter(fs, NotSchemata(s));
    FilterIn(fs, NotSchemata(s));
    forall f ensures f in r <==> f in fs && f.schemata != s {
      if f in fs {
        var i :| 0 <= i < |fs| && fs[i] == f;
        assert NotSchemata(s)(fs[i]) == (f.schemata != s);
      }
      if f in r {
        var i :| 0 <= i < |r| && r[i] == f;
        assert NotSchemata(s)(r[i]);
      }
    }
    DedupIn(Tabs(r));
    forall k | 0 <= k < |Tabs(r)| ensures Tabs(r)[k] != s {
      assert NotSchemata(s)(r[k]);
    }
  }

  /**
   * `d` may be `StringField('<s>_default', schemata=s)`, the field
   * `addSchemata(s)` adds: its name, type and schemata are fixed here,
   * its other attributes and its layers are those the field class gives.
   */
  predicate DefaultField(d: Field, s: string)
  {
    d.name == s + "_default" && d.kind == "string" && d.schemata == s
  }

  /**
   * Adding the default field raises only for a second primary field; once
   * stored, `s` is a schemata name.
   */
  lemma AddSchemataSpec(fs: seq<Field>, s: string, d: Field)
    requires DefaultField(d, s)
    ensures s in SchemataNames(Put(fs, d))
    ensures d in Put(fs, d)
    ensures CheckAdd(fs, d) == Pass || CheckAdd(fs, d) == Fail(SchemaException)
    ensures !IsPrimary(d) || FirstPrimary(fs).None? ==> CheckAdd(fs, d) == Pass
  {
    var r := Put(fs, d);
    var k := if d.name in Names(fs) then Find(Names(fs), d.name) else |fs|;
    assert r[k] == d;
    assert Tabs(r)[k] == s;
    DedupIn(Tabs(r));
  }

  /**
   * `changeSchemataForField(n, s)` on a container that keeps the rules:
   * the re-add passes the checks and the field, now in schemata `s`,
   * moves to the end.
   */
  lemma ChangeSchemataSpec(kind: Kind, fs: seq<Field>, n: string, s: string, storage: Value)
    requires UniqueNames(fs) && WellFormed(fs) && n in Names(fs)
    ensures var g := Prepared(kind, Lookup(fs, n).value.(schemata := s), storage);
      && CheckAdd(RemoveName(fs, n), g) == Pass
      && Put(RemoveName(fs, n), g) == RemoveName(fs, n) + [g]
      && (kind != MetadataSchemaKind ==> g.schemata == s)
  {
    var k := Find(Names(fs), n);
    RemoveNameAt(fs, n, k);
    assert Lookup(fs, n).value == fs[k];
    var g := Prepared(kind, fs[k].(schemata := s), storage);
    assert g.name == n == fs[k].name by {
      MetadataKeepsChecks([], fs[k].(schemata := s), storage);
    }
    RestOthers(fs, k);
    ChangeChecks(kind, fs, k, s, storage);
  }

  /** The field at `k`, moved to schemata `s` and prepared, passes the checks against the other fields of a container that keeps the rules. */
  lemma ChangeChecks(kind: Kind, fs: seq<Field>, k: nat, s: string, storage: Value)
    requires WellFormed(fs) && k < |fs|
    ensures CheckAdd(fs[..k] + fs[k + 1..], Prepared(kind, fs[k].(schemata := s), storage)) == Pass
  {
    var f := fs[k];
    var rest := fs[..k] + fs[k + 1..];
    MetadataKeepsChecks(rest, f.(schemata := s), storage);
    assert Qualified(f);
    if IsPrimary(f) {
      forall j | 0 <= j < |rest| ensures !IsPrimary(rest[j]) {
        assert rest[j] == fs[if j < k then j else j + 1];
      }
    }
  }

  /** Without the field at `k`, a container with unique names has no field of that name. */
  lemma RestOthers(fs: seq<Field>, k: nat)
    requires UniqueNames(fs) && k < |fs|
    ensures fs[k].name !in Names(fs[..k] + fs[k + 1..])
  {
    var rest := fs[..k] + fs[k + 1..];
    forall j | 0 <= j < |rest| ensures Names(rest)[j] != fs[k].name {
      var i := if j < k then j else j + 1;
      assert rest[j] == fs[i];
      assert Names(fs)[i] == fs[i].name && Names(fs)[k] == fs[k].name;
    }
  }

  /** A prefix stays a prefix behind a common front. */
  lemma PrefixBehind<T>(c: seq<T>, a: seq<T>, b: seq<T>)
    requires a <= b
    ensures c + a <= c + b
  {
    assert (c + b)[..|c + a|] == c + b[..|a|];
  }

  /** A sequence with a prefix `p + [y]` is `p`, then `y`, then the rest. */
  lemma PrefixSplit<T>(p: seq<T>, y: T, w: seq<T>)
    requires p + [y] <= w
    ensures w == p + [y] + w[|p| + 1..]
  {
    assert w == w[..|p| + 1] + w[|p| + 1..];
  }

  /** A field of a container with unique names is the one its name finds. */
  lemma NamedIn(fs: seq<Field>, x: Field)
    requires UniqueNames(fs) && x in fs
    ensures x.name in Names(fs) && x == fs[Find(Names(fs), x.name)]
  {
    var i :| 0 <= i < |fs| && fs[i] == x;
    assert Names(fs)[i] == x.name;
    FindDistinct(Names(fs), i);
  }

  /** The list `moveField(n, dir)` moves in: the fields of `n`'s schemata, with `n`'s field at `pos`. */
  lemma MovedGroupIs(fs: seq<Field>, n: string, dir: int, field: Field)
    requires UniqueNames(fs) && n in Names(fs) && field == fs[Find(Names(fs), n)] && (dir == -1 || dir == 1)
    ensures SchemataOf(fs, n) == field.schemata
    ensures n in Names(Group(fs, field.schemata))
    ensures var lst := Group(fs, field.schemata);
      lst[Find(Names(lst), n)] == field && MovedGroup(fs, n, dir) == MoveIn(lst, Find(Names(lst), n), dir)
  {
    var k := Find(Names(fs), n);
    assert Names(fs)[k] == field.name;
    InOwnGroup(fs, k);
    var lst := Group(fs, field.schemata);
    var pos := Find(Names(lst), n);
    FilterIn(fs, SchemataIs(field.schemata));
    assert Names(lst)[pos] == lst[pos].name;
    NamedIn(fs, lst[pos]);
  }

  /** The dictionary `moveSchemata` and `moveField` build: `getSchemataFields(t)` for each schemata `t` of `order`. */
  method GroupsByName(fs: seq<Field>, order: seq<string>) returns (d: map<string, seq<Field>>)
    ensures forall t :: t in d <==> t in order
    ensures forall t :: t in d ==> d[t] == Group(fs, t)
  {
    d := map[];
    var i := 0;
    while i < |order|
      invariant 0 <= i <= |order|
      invariant forall t :: t in d <==> t in order[..i]
      invariant forall t :: t in d ==> d[t] == Group(fs, t)
    {
      assert order[..i + 1] == order[..i] + [order[i]];
      d := d[order[i] := Group(fs, order[i])];
      i := i + 1;
    }
    assert order[..|order|] == order;
  }

  /**
   * The dictionary `moveField` re-adds from: the fields of each
   * schemata of `order`, with the list of `s0` after the field `n`
   * moved in it.
   */
  method MovedParts(fs: seq<Field>, order: seq<string>, s0: string, n: string, dir: int)
    returns (d: map<string, seq<Field>>, lst: seq<Field>)
    requires s0 in order && n in Names(Group(fs, s0)) && (dir == -1 || dir == 1)
    ensures lst == MoveIn(Group(fs, s0), Find(Names(Group(fs, s0)), n), dir)
    ensures forall t :: t in order ==> t in d && d[t] == Part(fs, t, s0, lst)
  {
    d := GroupsByName(fs, order);
    lst := d[s0];
    var pos := Find(Names(lst), n);
    lst := Moved(lst, pos, dir);
    d := d[s0 := lst];
  }

  /**
   * The list move of `moveSchemata` and `moveField`: `del lst[pos]` and
   * `lst.insert(pos + dir, x)` unless `pos` is the left end and `dir` is
   * -1 (the test `pos < len(lst)` for a move right always holds).
   */
  method Moved<T>(lst: seq<T>, pos: nat, dir: int) returns (r: seq<T>)
    requires pos < |lst| && (dir == -1 || dir == 1)
    ensures r == MoveIn(lst, pos, dir)
  {
    r := lst;
    var x := lst[pos];
    if dir == -1 && pos > 0 {
      r := Insert(Delete(r, pos), pos - 1, x);
    }
    if dir == 1 && pos < |r| {
      r := Insert(Delete(r, pos), pos + 1, x);
    }
  }

  /** What `moveField(n, dir)` computes before the rebuild: the schemata of `n`, its list, and the order re-added. */
  lemma MoveFieldSetup(fs: seq<Field>, n: string, dir: int, field: Field)
    requires UniqueNames(fs) && n in Names(fs) && field == fs[Find(Names(fs), n)] && (dir == -1 || dir == 1)
    ensures field.schemata in SchemataNames(fs)
    ensures n in Names(Group(fs, field.schemata))
    ensures var lst := Group(fs, field.schemata);
      MoveFieldOrder(fs, n, dir) == Layout(fs, SchemataNames(fs), field.schemata, MoveIn(lst, Find(Names(lst), n), dir))
  {
    MovedGroupIs(fs, n, dir, field);
    NamesOfFields(fs);
    assert Names(fs)[Find(Names(fs), n)] == n;
  }

  /**
   * Registering each of `es` in turn on a copy of the registry `ls`: the
   * loops over `registeredLayers()` in `__add__` and `copy`.
   */
  method Collect(ls: seq<LayerEntry>, es: seq<LayerEntry>) returns (r: seq<LayerEntry>)
    ensures r == RegisterAll(ls, es)
  {
    r := ls;
    var k := 0;
    while k < |es|
      invariant 0 <= k <= |es|
      invariant r == RegisterAll(ls, es[..k])
    {
      assert es[..k + 1][..k] == es[..k];
      r := RegisterLayer(r, es[k].0, es[k].1);
      k := k + 1;
    }
    assert es[..|es|] == es;
  }

  /**
   * The error loop of `validate`: each field's value (from the form, or
   * else from its accessor; skipped if there is neither) is validated and
   * a truthy verdict recorded under the field's name.
   */
  method CollectErrors(errors: map<string, Value>, sel: seq<Field>, formGiven: bool, processForm: Field -> Option<Value>,
                       accessor: Field -> Option<Value>, check: (Field, Value) -> Value)
    returns (errs: map<string, Value>)
    ensures errs == Validated(errors, sel, formGiven, processForm, accessor, check)
  {
    errs := errors;
    var i := 0;
    while i < |sel|
      invariant 0 <= i <= |sel|
      invariant errs == Validated(errors, sel[..i], formGiven, processForm, accessor, check)
    {
      var f := sel[i];
      assert sel[..i + 1][..i] == sel[..i];
      var result := if formGiven then processForm(f) else None;
      var value: Value;
      if result.None? {
        var got := accessor(f);
        if got.None? {
          i := i + 1;
          continue;
        }
        value := got.value;
      } else {
        value := result.value;
      }
      var res := check(f, value);
      if Truthy(res) {
        errs := errs[f.name := res];
      }
      i := i + 1;
    }
    assert sel[..|sel|] == sel;
  }

  /** One field's turn in `filterFields`: no predicate fails, no attribute is missing, none differs. */
  method Passes(f: Field, preds: seq<Field -> bool>, values: map<string, Value>) returns (keep: bool)
    ensures keep == MatchesFn(preds, values)(f)
  {
    var failed := exists k :: 0 <= k < |preds| && !preds[k](f);
    var missing := exists a :: a in values && Attr(f, a).None?;
    var differs := exists a :: a in values && Attr(f, a).Some? && !Equal(Attr(f, a).value, values[a]);
    keep := !failed && !missing && !differs;
  }

  /** One field's turn in `editableFields`: writeable, and visible on edit when only visible fields are asked for. */
  method Editable(f: Field, writeable: Field -> bool, visibleOnly: bool, hiddenOnEdit: Field -> bool) returns (keep: bool)
    ensures keep == EditableFn(writeable, visibleOnly, hiddenOnEdit)(f)
  {
    keep := false;
    if writeable(f) {
      if !visibleOnly {
        keep := true;
      } else {
        var visible := !hiddenOnEdit(f);
        keep := visible;
      }
    }
  }

  /** The field loop of `initializeLayers`. */
  method InitializeFieldLayers(fs: seq<Field>) returns (st: Run)
    ensures st == InitFields(Occurrences(fs))
  {
    st := Run([], []);
    var i := 0;
    while i < |fs|
      invariant 0 <= i <= |fs|
      invariant st == InitFields(Occurrences(fs[..i]))
    {
      st := InitializeFieldLayer(Occurrences(fs[..i]), st, fs[i]);
      OccurrencesStep(fs, i);
      i := i + 1;
    }
    assert fs[..|fs|] == fs;
  }

  /** One field's turn in the field loop of `initializeLayers`. */
  method InitializeFieldLayer(ghost os: seq<Occurrence>, st0: Run, f: Field) returns (st: Run)
    requires st0 == InitFields(os)
    ensures st == InitFields(os + LayersOf(f))
  {
    var trace, seen := st0.trace, st0.seen;
    RegistrationBounds(os, f);
    var j := 0;
    while j < |f.layers|
      invariant 0 <= j <= |f.layers|
      invariant Run(trace, seen) == InitFields(os + LayersOf(f)[..j])
    {
      var e := f.layers[j];
      ghost var cur := Run(trace, seen);
      RegistrationStep(os, f, j);
      if IsLayer(e) {
        if e !in seen {
          trace := trace + [InitializeInstance(e)];
          seen := seen + [e];
        }
        trace := trace + [InitializeField(e, f)];
      }
      assert Run(trace, seen) == InitStep(cur, (e, f));
      j := j + 1;
    }
    st := Run(trace, seen);
  }

  /** The field loop of `cleanupLayers`: every pair queued once, every layer told to clean the field up. */
  method CleanupFieldLayers(fs: seq<Field>) returns (st: Run)
    ensures st == CleanupFields(Occurrences(fs))
  {
    st := Run([], []);
    var i := 0;
    while i < |fs|
      invariant 0 <= i <= |fs|
      invariant st == CleanupFields(Occurrences(fs[..i]))
    {
      st := CleanupFieldLayer(Occurrences(fs[..i]), st, fs[i]);
      OccurrencesStep(fs, i);
      i := i + 1;
    }
    assert fs[..|fs|] == fs;
  }

  /** One field's turn in the field loop of `cleanupLayers`. */
  method CleanupFieldLayer(ghost os: seq<Occurrence>, st0: Run, f: Field) returns (st: Run)
    requires st0 == CleanupFields(os)
    ensures st == CleanupFields(os + LayersOf(f))
  {
    var trace, queue := st0.trace, st0.seen;
    RegistrationBounds(os, f);
    var j := 0;
    while j < |f.layers|
      invariant 0 <= j <= |f.layers|
      invariant Run(trace, queue) == CleanupFields(os + LayersOf(f)[..j])
    {
      var e := f.layers[j];
      ghost var cur := Run(trace, queue);
      RegistrationStep(os, f, j);
      if e !in queue {
        queue := queue + [e];
      }
      if IsLayer(e) {
        trace := trace + [CleanupField(e, f)];
      }
      assert Run(trace, queue) == CleanupStep(cur, (e, f));
      j := j + 1;
    }
    st := Run(trace, queue);
  }

  /** The loop of `cleanupLayers` over the queued pairs: each layer cleans the instance up. */
  method CleanupQueued(queue: seq<LayerEntry>) returns (t: seq<Event>)
    ensures t == Queued(queue)
  {
    t := [];
    var q := 0;
    while q < |queue|
      invariant 0 <= q <= |queue|
      invariant t == Queued(queue[..q])
    {
      assert queue[..q + 1][..q] == queue[..q];
      if IsLayer(queue[q]) {
        t := t + [CleanupInstance(queue[q])];
      }
      q := q + 1;
    }
    assert queue[..|queue|] == queue;
  }

  /** The loop over the schema's own registrations, in either run. */
  method InstanceLayers(st0: Run, ls: seq<LayerEntry>, init: bool) returns (st: Run)
    ensures st == InstanceLevel(st0, ls, init)
  {
    var trace, seen := st0.trace, st0.seen;
    var k := 0;
    while k < |ls|
      invariant 0 <= k <= |ls|
      invariant Run(trace, seen) == InstanceLevel(st0, ls[..k], init)
    {
      var e := ls[k];
      assert ls[..k + 1][..k] == ls[..k];
      if e !in seen && IsLayer(e) {
        trace := trace + [if init then InitializeInstance(e) else CleanupInstance(e)];
        seen := seen + [e];
      }
      k := k + 1;
    }
    assert ls[..|ls|] == ls;
    st := Run(trace, seen);
  }

  /** One call of a series of `addField` calls: it extends the series, or ends it with its exception. */
  lemma AddStep(fs0: seq<Field>, all: seq<Field>, k: nat, cur: seq<Field>)
    requires k < |all| && AddAll(fs0, all[..k]) == Success(cur)
    ensures CheckAdd(cur, all[k]) == Pass ==> AddAll(fs0, all[..k + 1]) == Success(Put(cur, all[k]))
    ensures CheckAdd(cur, all[k]).Fail? ==>
      OutcomeOf(AddAll(fs0, all)) == CheckAdd(cur, all[k]) && Reached(fs0, all) == cur
  {
    AddAllSnoc(fs0, all[..k], all[k]);
    assert all[..k + 1] == all[..k] + [all[k]];
    if CheckAdd(cur, all[k]).Fail? {
      assert all == all[..k] + [all[k]] + all[k + 1..];
      ReachedStop(fs0, all[..k], all[k], all[k + 1..]);
    }
  }

  /** One step of `delSchemata(s)`: the j-th field goes if it is in schemata `s`, and stays otherwise. */
  lemma DelStep(fs: seq<Field>, j: nat, s: string, cur: seq<Field>)
    requires j < |fs| && cur == Filter(fs[..j], NotSchemata(s)) + fs[j..] && UniqueNames(cur)
    ensures fs[j].schemata == s ==>
      fs[j].name in Names(cur) && RemoveName(cur, fs[j].name) == Filter(fs[..j + 1], NotSchemata(s)) + fs[j + 1..]
    ensures fs[j].schemata != s ==> cur == Filter(fs[..j + 1], NotSchemata(s)) + fs[j + 1..]
  {
    var f := fs[j];
    var xs := Filter(fs[..j], NotSchemata(s));
    FilterSnoc(fs[..j], f, NotSchemata(s));
    assert fs[..j + 1] == fs[..j] + [f];
    assert fs[j..] == [f] + fs[j + 1..];
    assert cur == xs + [f] + fs[j + 1..];
    if f.schemata == s {
      RemoveAtJunction(xs, f, fs[j + 1..]);
      InNames(cur, |xs|);
    }
  }

  /** The same, for a call whose series so far is any prefix `p` of the whole series `all`. */
  lemma AddPrefixStep(all: seq<Field>, p: seq<Field>, y: Field, cur: seq<Field>)
    requires p + [y] <= all && AddAll([], p) == Success(cur)
    ensures CheckAdd(cur, y) == Pass ==> AddAll([], p + [y]) == Success(Put(cur, y))
    ensures CheckAdd(cur, y).Fail? ==> OutcomeOf(AddAll([], all)) == CheckAdd(cur, y) && Reached([], all) == cur
  {
    AddAllSnoc([], p, y);
    if CheckAdd(cur, y).Fail? {
      PrefixSplit(p, y, all);
      ReachedStop([], p, y, all[|p| + 1..]);
    }
  }

  /** One step of the rebuild of schemata `t`: the j-th field is added if it is in `t`, and skipped otherwise. */
  lemma GroupStep(all: seq<Field>, before: seq<Field>, fs: seq<Field>, t: string, j: nat, cur: seq<Field>)
    requires j < |fs| && before + Group(fs, t) <= all
    requires AddAll([], before + Filter(fs[..j], SchemataIs(t))) == Success(cur)
    ensures fs[j].schemata != t ==> AddAll([], before + Filter(fs[..j + 1], SchemataIs(t))) == Success(cur)
    ensures fs[j].schemata == t && CheckAdd(cur, fs[j]) == Pass ==>
      AddAll([], before + Filter(fs[..j + 1], SchemataIs(t))) == Success(Put(cur, fs[j]))
    ensures fs[j].schemata == t && CheckAdd(cur, fs[j]).Fail? ==>
      OutcomeOf(AddAll([], all)) == CheckAdd(cur, fs[j]) && Reached([], all) == cur
  {
    FilterStep(fs, j, SchemataIs(t));
    var x, y := Filter(fs[..j], SchemataIs(t)), Filter(fs[..j + 1], SchemataIs(t));
    if fs[j].schemata == t {
      assert y == x + [fs[j]];
      PrefixBehind(before, y, Group(fs, t));
      assert before + x + [fs[j]] == before + y;
      AddPrefixStep(all, before + x, fs[j], cur);
    } else {
      assert y == x;
    }
  }

  /** One call of the re-add of a list `part` that follows `before` in the whole series `all`. */
  lemma RunStep(all: seq<Field>, before: seq<Field>, part: seq<Field>, j: nat, cur: seq<Field>)
    requires j < |part| && before + part <= all
    requires AddAll([], before + part[..j]) == Success(cur)
    ensures CheckAdd(cur, part[j]) == Pass ==> AddAll([], before + part[..j + 1]) == Success(Put(cur, part[j]))
    ensures CheckAdd(cur, part[j]).Fail? ==>
      OutcomeOf(AddAll([], all)) == CheckAdd(cur, part[j]) && Reached([], all) == cur
  {
    assert part[..j + 1] == part[..j] + [part[j]];
    assert before + part[..j] + [part[j]] == before + part[..j + 1];
    assert part[..j + 1] <= part;
    PrefixBehind(before, part[..j + 1], part);
    AddPrefixStep(all, before + part[..j], part[j], cur);
  }

  /** One schemata of the rebuild: its part follows the parts before it, and the rebuild so far is a prefix of the whole. */
  lemma LayoutStep(fs: seq<Field>, order: seq<string>, s0: string, lst: seq<Field>, i: nat)
    requires i < |order|
    ensures Layout(fs, order[..i], s0, lst) + Part(fs, order[i], s0, lst) <= Layout(fs, order, s0, lst)
  {
    LayoutSnoc(fs, order, s0, lst, i);
    LayoutPrefix(fs, order, s0, lst, i + 1);
  }

  // ---------------------------------------------------------------------
  // The schema object

  class Schema {
    /** Which Python class the object is. */
    var kind: Kind
    /** `__name__` (`getName()`). */
    var name: string
    /** `_names`. */
    var names: seq<string>
    /** `_fields`. */
    var fields: map<string, Field>
    /** `_props`; a plain `Schemata` has none. */
    var props: map<string, Value>
    /** The layer registry of a `Schema`; the other kinds have none. */
    var layers: seq<LayerEntry>

    ghost predicate Valid()
      reads this
    {
      && Synced(names, fields)
      && Distinct(LayerNames(layers))
      && (!kind.HasLayers() ==> layers == [])
      && (kind == SchemataKind ==> props == map[])
    }

    /** `fields()` (and `values()`). */
    function Fields(): (r: seq<Field>)
      reads this
      requires Valid()
      ensures UniqueNames(r) && Names(r) == names
    {
      FieldsOf(names, fields)
    }

    /** `Schemata(name)` without fields. */
    constructor Schemata(schemataName: string)
      ensures Valid() && kind == SchemataKind && name == schemataName
      ensures Fields() == [] && props == map[] && layers == []
    {
      kind := SchemataKind;
      name := schemataName;
      names := [];
      fields := map[];
      props := map[];
      layers := [];
    }

    /**
     * `BasicSchema(**kwargs)` and its subclasses, without positional
     * arguments: no fields, name `default`, the keyword arguments as
     * properties, and for a `Schema` the marshall layer if one is given.
     */
    constructor Basic(k: Kind, kwargs: map<string, Value>)
      requires k != SchemataKind
      ensures Valid() && kind == k && name == "default"
      ensures Fields() == [] && props == kwargs && layers == InitialLayers(k, kwargs)
    {
      kind := k;
      name := "default";
      names := [];
      fields := map[];
      props := kwargs;
      layers := InitialLayers(k, kwargs);
    }

    /**
     * `hasPrimary()`: the first primary field, or `None` (Python's
     * `False`) if there is none.
     */
    method HasPrimary() returns (r: Option<Field>)
      requires Valid()
      ensures r == FirstPrimary(Fields())
      ensures r.Some? ==> r.value in Fields() && IsPrimary(r.value)
      ensures r.None? <==> forall i :: 0 <= i < |Fields()| ==> !IsPrimary(Fields()[i])
    {
      var fs := Fields();
      var i := 0;
      while i < |fs|
        invariant 0 <= i <= |fs|
        invariant forall j :: 0 <= j < i ==> !IsPrimary(fs[j])
      {
        if IsPrimary(fs[i]) {
          assert PrimaryAt(fs) == i;
          return Some(fs[i]);
        }
        i := i + 1;
      }
      assert PrimaryAt(fs) == |fs|;
      return None;
    }

    /**
     * `addField(f)`: `_validateOnAdd`, then the field is stored under its
     * name, a new name appended to `_names`. For a `MetadataSchema` the
     * field is first marked as metadata with `storage`. On an exception
     * nothing changes.
     */
    method AddField(f: Field, storage: Value) returns (r: Outcome)
      requires Valid()
      modifies this
      ensures Valid()
      ensures kind == old(kind) && name == old(name) && props == old(props) && layers == old(layers)
      ensures r == CheckAdd(old(Fields()), Prepared(kind, f, storage))
      ensures r.Pass? ==> Fields() == Put(old(Fields()), Prepared(kind, f, storage))
      ensures r.Fail? ==> names == old(names) && fields == old(fields)
    {
      var g := Prepared(kind, f, storage);
      if IsPrimary(g) {
        var res := HasPrimary();
        if res.Some? && g.name != res.value.name {
          return Fail(SchemaException);
        }
      }
      if g.kind == "reference" && !Qualified(g) {
        return Fail(ReferenceException);
      }
      Store(g);
      r := Pass;
    }

    /** The update of `addField` once the checks have passed: the field is stored under its name. */
    method Store(g: Field)
      requires Valid()
      modifies this
      ensures Valid()
      ensures kind == old(kind) && name == old(name) && props == old(props) && layers == old(layers)
      ensures Fields() == Put(old(Fields()), g)
    {
      ghost var before := FieldsOf(names, fields);
      var names' := if g.name in names then names else names + [g.name];
      var fields' := fields[g.name := g];
      StoreSpec(names, fields, g, names');
      ghost var after := FieldsOf(names', fields');
      assert after == Put(before, g);
      names, fields := names', fields';
      assert Fields() == after;
    }

    /** `__delitem__(n)` (`delField`): KeyError if there is no such field, else it is removed from both. */
    method DelField(n: string) returns (r: Outcome)
      requires Valid()
      modifies this
      ensures Valid()
      ensures kind == old(kind) && name == old(name) && props == old(props) && layers == old(layers)
      ensures n !in old(names) ==> r == Fail(KeyError) && names == old(names) && fields == old(fields)
      ensures n in old(names) ==> r == Pass && Fields() == RemoveName(old(Fields()), n)
    {
      if n !in fields {
        return Fail(KeyError);
      }
      DropSpec(names, fields, n);
      fields := fields - {n};
      names := Delete(names, Find(names, n));
      r := Pass;
    }

    /**
     * `replaceField(n, f)`: `f` takes the place of the field named `n`,
     * without the checks of `addField`; ValueError (from `list.index`)
     * if there is no such field. The new name must be `n` or unused.
     */
    method ReplaceField(n: string, f: Field) returns (r: Outcome)
      requires Valid() && kind != SchemataKind
      requires n in names ==> f.name == n || f.name !in names
      modifies this
      ensures Valid()
      ensures kind == old(kind) && name == old(name) && props == old(props) && layers == old(layers)
      ensures n !in old(names) ==> r == Fail(ValueError) && names == old(names) && fields == old(fields)
      ensures n in old(names) ==> r == Pass && Fields() == Replace(old(Fields()), n, f)
    {
      if n !in names {
        return Fail(ValueError);
      }
      var k := Find(names, n);
      SwapSpec(names, fields, n, f);
      names := names[k := f.name];
      fields := (fields - {n})[f.name := f];
      r := Pass;
    }

    /**
     * `changeSchemataForField(n, s)`: KeyError if there is no field `n`;
     * otherwise the field is deleted, its schemata set to `s`, and it is
     * added again (so it moves to the end). If that `addField` raises,
     * the field stays deleted.
     */
    method ChangeSchemataForField(n: string, s: string, storage: Value) returns (r: Outcome)
      requires Valid() && kind != SchemataKind
      modifies this
      ensures Valid()
      ensures kind == old(kind) && name == old(name) && props == old(props) && layers == old(layers)
      ensures n !in old(names) ==> r == Fail(KeyError) && names == old(names) && fields == old(fields)
      ensures n in old(names) ==>
        var g := Prepared(kind, old(fields[n]).(schemata := s), storage);
        var rest := RemoveName(old(Fields()), n);
        r == CheckAdd(rest, g) && Fields() == (if r.Pass? then Put(rest, g) else rest)
    {
      if n !in fields {
        return Fail(KeyError);
      }
      var field := fields[n];
      var _ := DelField(n);
      r := AddField(field.(schemata := s), storage);
    }

    /** `hasPrimary` is one of the queries; these are the others. */

    /** `filterFields(*preds, **values)`. */
    method FilterFields(preds: seq<Field -> bool>, values: map<string, Value>) returns (r: seq<Field>)
      requires Valid()
      ensures r == Filter(Fields(), MatchesFn(preds, values))
    {
      var fs := Fields();
      r := [];
      var i := 0;
      while i < |fs|
        invariant 0 <= i <= |fs|
        invariant r == Filter(fs[..i], MatchesFn(preds, values))
      {
        var f := fs[i];
        var keep := Passes(f, preds, values);
        FilterKeep(fs, i, MatchesFn(preds, values), r, keep);
        if keep {
          r := r + [f];
        }
        i := i + 1;
      }
      assert fs[..|fs|] == fs;
    }

    /**
     * `editableFields(instance, visible_only)`: `writeable` and
     * `hiddenOnEdit` stand for the field's permission check and its
     * widget's `visible['edit']` setting for the instance.
     */
    method EditableFields(writeable: Field -> bool, visibleOnly: bool, hiddenOnEdit: Field -> bool) returns (r: seq<Field>)
      requires Valid()
      ensures r == Filter(Fields(), EditableFn(writeable, visibleOnly, hiddenOnEdit))
    {
      var fs := Fields();
      r := [];
      var i := 0;
      while i < |fs|
        invariant 0 <= i <= |fs|
        invariant r == Filter(fs[..i], EditableFn(writeable, visibleOnly, hiddenOnEdit))
      {
        var f := fs[i];
        var keep := Editable(f, writeable, visibleOnly, hiddenOnEdit);
        FilterKeep(fs, i, EditableFn(writeable, visibleOnly, hiddenOnEdit), r, keep);
        if keep {
          r := r + [f];
        }
        i := i + 1;
      }
      assert fs[..|fs|] == fs;
    }

    /** `getSchemataNames()`: each schemata once, in order of first appearance. */
    method GetSchemataNames() returns (r: seq<string>)
      requires Valid() && kind != SchemataKind
      ensures r == SchemataNames(Fields())
    {
      var fs := Fields();
      r := [];
      var i := 0;
      while i < |fs|
        invariant 0 <= i <= |fs|
        invariant r == Dedup(Tabs(fs[..i]))
      {
        assert Tabs(fs[..i + 1]) == Tabs(fs[..i]) + [fs[i].schemata];
        assert Tabs(fs[..i + 1])[..i] == Tabs(fs[..i]);
        if fs[i].schemata !in r {
          r := r + [fs[i].schemata];
        }
        i := i + 1;
      }
      assert fs[..|fs|] == fs;
    }

    /**
     * `updateAll(instance, **kwargs)`: the mutator calls made on the
     * instance, in order; `writeable` stands for the field's permission
     * check.
     */
    method UpdateAll(kwargs: map<string, Value>, writeable: Field -> bool) returns (calls: seq<(Field, Value)>)
      requires Valid() && kind != SchemataKind
      ensures calls == Mutations(Fields(), kwargs, writeable)
    {
      var fs := Fields();
      calls := [];
      var i := 0;
      while i < |fs|
        invariant 0 <= i <= |fs|
        invariant calls == Mutations(fs[..i], kwargs, writeable)
      {
        var f := fs[i];
        MutationsTake(fs, i, kwargs, writeable);
        if f.name in kwargs && writeable(f) {
          calls := calls + [(f, kwargs[f.name])];
        }
        i := i + 1;
      }
      assert fs[..|fs|] == fs;
    }

    /**
     * The fields `validate` looks at: those of the `fieldset` named in the
     * form (KeyError if the instance has no such schemata), or else the
     * non-metadata and then the metadata fields, as the flags ask.
     */
    method ValidationFields(form: Option<map<string, Value>>, groups: map<string, seq<Field>>, data: Value, metadata: Value)
      returns (r: Result<seq<Field>>)
      requires Valid()
      ensures r == Selected(Fields(), form, groups, data, metadata)
    {
      var fieldset := if form.Some? && "fieldset" in form.value then form.value["fieldset"] else NoneValue;
      ghost var want := Selected(Fields(), form, groups, data, metadata);
      if fieldset != NoneValue {
        var key := Text(fieldset);
        if !(key.Some? && key.value in groups) {
          assert want == Failure(KeyError);
          return Failure(KeyError);
        }
        assert want == Success(groups[key.value]);
        return Success(groups[key.value]);
      }
      var flagged := FlagFields(data, metadata);
      return Success(flagged);
    }

    /** The fields `validate` looks at without a `fieldset`: `filterFields(isMetadata=0)` and/or `filterFields(isMetadata=1)`. */
    method FlagFields(data: Value, metadata: Value) returns (r: seq<Field>)
      requires Valid()
      ensures r == (if Truthy(data) then Filter(Fields(), MetadataIs(0)) else []) +
                   (if Truthy(metadata) then Filter(Fields(), MetadataIs(1)) else [])
    {
      var d: seq<Field> := [];
      if Truthy(data) {
        d := FilterFields([], map["isMetadata" := Int(0)]);
      }
      var m: seq<Field> := [];
      if Truthy(metadata) {
        m := FilterFields([], map["isMetadata" := Int(1)]);
      }
      r := d + m;
    }

    /**
     * `validate(instance, REQUEST, errors, data, metadata)`: `form` is
     * the request's form (`None` without a request), `groups` the
     * instance's schematas, `processForm`, `accessor` and `check` the
     * widget's form processing, the field's accessor and the field's own
     * validation. Returns the error map, or KeyError for an unknown
     * `fieldset`.
     */
    method Validate(form: Option<map<string, Value>>, groups: map<string, seq<Field>>, errors: map<string, Value>,
                    data: Value, metadata: Value, processForm: Field -> Option<Value>,
                    accessor: Field -> Option<Value>, check: (Field, Value) -> Value)
      returns (r: Result<map<string, Value>>)
      requires Valid() && kind != SchemataKind
      ensures Selected(Fields(), form, groups, data, metadata).Failure? ==> r == Failure(KeyError)
      ensures Selected(Fields(), form, groups, data, metadata).Success? ==>
        r == Success(Validated(errors, Selected(Fields(), form, groups, data, metadata).value,
                               form.Some? && form.value != map[], processForm, accessor, check))
    {
      var selected := ValidationFields(form, groups, data, metadata);
      if selected.Failure? {
        return Failure(selected.error);
      }
      var errs := CollectErrors(errors, selected.value, form.Some? && form.value != map[], processForm, accessor, check);
      return Success(errs);
    }

    /** `initializeLayers(instance)`: the calls made on the layer objects, in order. */
    method InitializeLayers() returns (trace: seq<Event>)
      requires Valid() && kind.HasLayers()
      ensures trace == InitializeTrace(Fields(), layers)
    {
      var st := InitializeFieldLayers(Fields());
      st := InstanceLayers(st, layers, true);
      trace := st.trace;
    }

    /** `cleanupLayers(instance)`: the calls made on the layer objects, in order. */
    method CleanupLayers() returns (trace: seq<Event>)
      requires Valid() && kind.HasLayers()
      ensures trace == CleanupTrace(Fields(), layers)
    {
      var st := CleanupFieldLayers(Fields());
      var t := CleanupQueued(st.seen);
      st := InstanceLayers(Run(st.trace + t, st.seen), layers, false);
      trace := st.trace;
    }

    /**
     * `addField` for each of `gs` in turn, stopping at the first
     * exception; for a `MetadataSchema` the k-th call creates storage
     * `storage(k)`. What was stored before the exception stays.
     */
    method AddEach(gs: seq<Field>, storage: nat -> Value) returns (r: Outcome)
      requires Valid()
      modifies this
      ensures Valid()
      ensures kind == old(kind) && name == old(name) && props == old(props) && layers == old(layers)
      ensures r == OutcomeOf(AddAll(old(Fields()), PrepareAll(kind, gs, storage)))
      ensures Fields() == Reached(old(Fields()), PrepareAll(kind, gs, storage))
    {
      ghost var fs0 := Fields();
      ghost var all := PrepareAll(kind, gs, storage);
      var k := 0;
      while k < |gs|
        invariant 0 <= k <= |gs|
        invariant Valid()
        invariant kind == old(kind) && name == old(name) && props == old(props) && layers == old(layers)
        invariant AddAll(fs0, all[..k]) == Success(Fields())
      {
        ghost var cur := Fields();
        r := AddField(gs[k], storage(k));
        AddStep(fs0, all, k, cur);
        if r.Fail? {
          return;
        }
        k := k + 1;
      }
      assert all[..|gs|] == all;
      ReachedSuccess(fs0, all);
      r := Pass;
    }

    /** `Schemata(name, fields)`: a schemata with the given fields added in turn. */
    static method NewSchemata(schemataName: string, fs: seq<Field>) returns (r: Result<Schema>)
      ensures r.Failure? <==> AddAll([], fs).Failure?
      ensures r.Failure? ==> r.error == AddAll([], fs).error
      ensures r.Success? ==> fresh(r.value) && r.value.Valid() && r.value.kind == SchemataKind && r.value.name == schemataName
      ensures r.Success? ==> r.value.Fields() == AddAll([], fs).value && r.value.props == map[] && r.value.layers == []
      ensures UniqueNames(fs) && WellFormed(fs) ==> r.Success? && r.value.Fields() == fs
    {
      var c := new Schema.Schemata(schemataName);
      var out := c.AddEach(fs, _ => NoneValue);
      if UniqueNames(fs) && WellFormed(fs) {
        AddAllCopy(fs);
      }
      if out.Fail? {
        return Failure(out.error);
      }
      ReachedSuccess([], fs);
      return Success(c);
    }

    /**
     * `BasicSchema(*args, **kwargs)` and its subclasses: the keyword
     * arguments become the properties, a truthy `marshall` is registered
     * as a layer of a `Schema`, and the positional fields are added in
     * turn as the loop is written: fields passed one by one are each
     * replaced by the first of them (see `PositionalFieldsLost`). An
     * exception leaves no schema.
     */
    static method Build(k: Kind, args: Positional, kwargs: map<string, Value>, storage: nat -> Value) returns (r: Result<Schema>)
      requires k != SchemataKind
      ensures r.Failure? <==> AddAll([], PrepareAll(k, AddedAsWritten(args), storage)).Failure?
      ensures r.Failure? ==> r.error == AddAll([], PrepareAll(k, AddedAsWritten(args), storage)).error
      ensures r.Success? ==> fresh(r.value) && r.value.Valid() && r.value.kind == k && r.value.name == "default"
      ensures r.Success? ==> r.value.Fields() == AddAll([], PrepareAll(k, AddedAsWritten(args), storage)).value
      ensures r.Success? ==> r.value.props == kwargs && r.value.layers == InitialLayers(k, kwargs)
    {
      var c := new Schema.Basic(k, kwargs);
      var out := c.AddEach(AddedAsWritten(args), storage);
      if out.Fail? {
        return Failure(out.error);
      }
      ReachedSuccess([], PrepareAll(k, AddedAsWritten(args), storage));
      return Success(c);
    }

    /** A new empty schema of kind `k` with the fields `gs` added in turn, and the outcome of the calls. */
    static method Filled(k: Kind, gs: seq<Field>, storage: nat -> Value) returns (c: Schema, out: Outcome)
      ensures fresh(c) && c.Valid() && c.kind == k && c.name == "default" && c.props == map[] && c.layers == []
      ensures out == OutcomeOf(AddAll([], PrepareAll(k, gs, storage)))
      ensures out.Pass? ==> c.Fields() == AddAll([], PrepareAll(k, gs, storage)).value
    {
      c := Empty(k);
      out := c.AddEach(gs, storage);
      if out.Pass? {
        ReachedSuccess([], PrepareAll(k, gs, storage));
      }
    }

    /** `factory()` without arguments: an empty schema of kind `k`, named `default`, without properties or layers. */
    static method Empty(k: Kind) returns (c: Schema)
      ensures fresh(c) && c.Valid() && c.kind == k && c.name == "default"
      ensures c.Fields() == [] && c.props == map[] && c.layers == []
    {
      if k == SchemataKind {
        c := new Schema.Schemata("default");
      } else {
        c := new Schema.Basic(k, map[]);
      }
    }

    /** `_props.update(p)` on a schema without properties. */
    method SetProps(p: map<string, Value>)
      requires Valid() && kind != SchemataKind && props == map[]
      modifies this
      ensures Valid() && kind == old(kind) && name == old(name) && names == old(names) && fields == old(fields)
      ensures props == p && layers == old(layers)
    {
      props := p;
    }

    /** `registerLayer(k, v)` for each entry of `es` in turn. */
    method RegisterLayers(es: seq<LayerEntry>)
      requires Valid() && kind.HasLayers()
      modifies this
      ensures Valid() && kind == old(kind) && name == old(name) && names == old(names) && fields == old(fields)
      ensures props == old(props) && layers == RegisterAll(old(layers), es)
    {
      RegisterAllSpec(layers, es);
      var registered := Collect(layers, es);
      layers := registered;
    }

    /**
     * `self + other`: a new `Schemata`, `BasicSchema` or (for `Schema`
     * and its subclasses) `Schema` holding this schema's fields and then
     * the other's, added in turn; this schema's properties; for a
     * `Schema` the layers of both, the other's winning on a name, and
     * AttributeError if the other is not a `Schema` and so has no layer
     * registry at all.
     */
    method Concat(other: Schema) returns (r: Result<Schema>)
      requires Valid() && other.Valid()
      ensures AddAll([], Fields() + other.Fields()).Failure? ==> r == Failure(AddAll([], Fields() + other.Fields()).error)
      ensures AddAll([], Fields() + other.Fields()).Success? && kind.HasLayers() && !other.kind.HasLayers() ==> r == Failure(AttributeError)
      ensures AddAll([], Fields() + other.Fields()).Success? && (!kind.HasLayers() || other.kind.HasLayers()) ==> r.Success?
      ensures r.Success? ==> fresh(r.value) && r.value.Valid() && r.value.name == "default" && r.value.props == props
      ensures r.Success? ==> r.value.kind == (if kind == SchemataKind then SchemataKind else if kind == BasicSchemaKind then BasicSchemaKind else SchemaKind)
      ensures r.Success? ==> r.value.Fields() == AddAll([], Fields() + other.Fields()).value
      ensures r.Success? ==> r.value.layers == (if kind.HasLayers() then MergeLayers(layers, other.layers) else [])
      ensures UniqueNames(Fields() + other.Fields()) && WellFormed(Fields() + other.Fields()) && r.Success? ==>
        r.value.Fields() == Fields() + other.Fields()
    {
      var all := Fields() + other.Fields();
      var c, out := Filled(if kind == SchemataKind then SchemataKind else if kind == BasicSchemaKind then BasicSchemaKind else SchemaKind, all, NoStorage);
      if UniqueNames(all) && WellFormed(all) {
        AddAllCopy(all);
      }
      if out.Fail? {
        return Failure(out.error);
      }
      if kind != SchemataKind {
        c.SetProps(props);
      }
      if kind.HasLayers() {
        if !other.kind.HasLayers() {
          return Failure(AttributeError);
        }
        var merged := Collect([], layers);
        merged := Collect(merged, other.layers);
        c.RegisterLayers(merged);
      }
      return Success(c);
    }

    /**
     * `copy()`: a new schema of the same kind (a `Schemata` is named
     * `default`) holding this schema's fields, added in turn, its
     * properties and its layers registered again. A container that
     * keeps the rules (and is not a `MetadataSchema`, whose re-add gives
     * every field a new storage) is copied exactly.
     */
    method Copy(storage: nat -> Value) returns (r: Result<Schema>)
      requires Valid()
      ensures r.Failure? <==> AddAll([], PrepareAll(kind, Fields(), storage)).Failure?
      ensures r.Failure? ==> r.error == AddAll([], PrepareAll(kind, Fields(), storage)).error
      ensures r.Success? ==> fresh(r.value) && r.value.Valid() && r.value.kind == kind && r.value.name == "default"
      ensures r.Success? ==> r.value.Fields() == AddAll([], PrepareAll(kind, Fields(), storage)).value
      ensures r.Success? ==> r.value.props == props && r.value.layers == CopyLayers(layers)
      ensures kind != MetadataSchemaKind && WellFormed(Fields()) ==> r.Success? && r.value.Fields() == Fields() && r.value.layers == layers
    {
      var c, out := Filled(kind, Fields(), storage);
      if kind != MetadataSchemaKind && WellFormed(Fields()) {
        AddAllCopy(Fields());
      }
      if out.Fail? {
        return Failure(out.error);
      }
      if kind != SchemataKind {
        c.SetProps(props);
      }
      if kind.HasLayers() {
        c.RegisterLayers(layers);
      }
      CopyLayersSpec(layers);
      return Success(c);
    }

    /**
     * `self.__init__()` on a `ManagedSchema`: no fields, name `default`,
     * no properties (none are passed) and an empty layer registry.
     */
    method Reinit()
      requires Valid() && kind == ManagedSchemaKind
      modifies this
      ensures Valid() && kind == old(kind) && name == "default"
      ensures Fields() == [] && props == map[] && layers == []
    {
      name := "default";
      names := [];
      fields := map[];
      props := map[];
      layers := InitialLayers(kind, map[]);
    }

    /** `delSchemata(s)`: each field of schemata `s` is deleted, the others keep their order. */
    method DelSchemata(s: string)
      requires Valid() && kind == ManagedSchemaKind
      modifies this
      ensures Valid()
      ensures kind == old(kind) && name == old(name) && props == old(props) && layers == old(layers)
      ensures Fields() == Filter(old(Fields()), NotSchemata(s))
    {
      var fs := Fields();
      var j := 0;
      assert Filter(fs[..0], NotSchemata(s)) + fs[0..] == fs;
      while j < |fs|
        invariant 0 <= j <= |fs|
        invariant Valid()
        invariant kind == old(kind) && name == old(name) && props == old(props) && layers == old(layers)
        invariant Fields() == Filter(fs[..j], NotSchemata(s)) + fs[j..]
      {
        DelStep(fs, j, s, Fields());
        DelIfIn(fs[j], s);
        j := j + 1;
      }
      assert fs[..|fs|] == fs;
      assert Filter(fs[..|fs|], NotSchemata(s)) + fs[|fs|..] == Filter(fs, NotSchemata(s));
    }

    /** The body of the loop of `delSchemata(s)`: the field is deleted if it is in schemata `s`. */
    method DelIfIn(f: Field, s: string)
      requires Valid() && (f.schemata == s ==> f.name in Names(Fields()))
      modifies this
      ensures Valid()
      ensures kind == old(kind) && name == old(name) && props == old(props) && layers == old(layers)
      ensures Fields() == if f.schemata == s then RemoveName(old(Fields()), f.name) else old(Fields())
    {
      if f.schemata == s {
        var _ := DelField(f.name);
      }
    }

    /**
     * `addSchemata(s)`: ValueError if `s` is already a schemata name;
     * otherwise `addField(d)` of the field `d` constructed as
     * `StringField('<s>_default', schemata=s)`.
     */
    method AddSchemata(s: string, d: Field) returns (r: Outcome)
      requires Valid() && kind == ManagedSchemaKind && DefaultField(d, s)
      modifies this
      ensures Valid()
      ensures kind == old(kind) && name == old(name) && props == old(props) && layers == old(layers)
      ensures s in SchemataNames(old(Fields())) ==> r == Fail(ValueError) && names == old(names) && fields == old(fields)
      ensures s !in SchemataNames(old(Fields())) ==> r == CheckAdd(old(Fields()), d)
      ensures s !in SchemataNames(old(Fields())) && !IsPrimary(d) ==> r == Pass
      ensures s !in SchemataNames(old(Fields())) && r == Pass ==> Fields() == Put(old(Fields()), d) && s in SchemataNames(Fields())
      ensures r.Fail? ==> names == old(names) && fields == old(fields)
    {
      var schemataNames := GetSchemataNames();
      if s in schemataNames {
        return Fail(ValueError);
      }
      AddSchemataSpec(Fields(), s, d);
      r := AddField(d, NoneValue);
    }

    /** One schemata of the rebuild: `addField(f)` for each of `fs` in schemata `t`, stopping at an exception. */
    method AddGroup(ghost all: seq<Field>, ghost before: seq<Field>, fs: seq<Field>, t: string) returns (r: Outcome)
      requires Valid() && kind == ManagedSchemaKind
      requires AddAll([], before) == Success(Fields()) && before + Group(fs, t) <= all
      modifies this
      ensures Valid()
      ensures kind == old(kind) && name == old(name) && props == old(props) && layers == old(layers)
      ensures r.Pass? ==> AddAll([], before + Group(fs, t)) == Success(Fields())
      ensures r.Fail? ==> r == OutcomeOf(AddAll([], all)) && Fields() == Reached([], all)
    {
      var j := 0;
      r := Pass;
      assert before + Filter(fs[..0], SchemataIs(t)) == before;
      while j < |fs|
        invariant 0 <= j <= |fs| && r == Pass
        invariant Valid()
        invariant kind == old(kind) && name == old(name) && props == old(props) && layers == old(layers)
        invariant AddAll([], before + Filter(fs[..j], SchemataIs(t))) == Success(Fields())
      {
        var f := fs[j];
        ghost var cur := Fields();
        ghost var next := before + Filter(fs[..j + 1], SchemataIs(t));
        GroupStep(all, before, fs, t, j, cur);
        if f.schemata == t {
          assert Prepared(kind, f, NoneValue) == f;
          r := AddField(f, NoneValue);
          if r.Fail? {
            assert Fields() == cur;
            return;
          }
          assert AddAll([], next) == Success(Fields());
        } else {
          assert AddAll([], next) == Success(Fields());
        }
        j := j + 1;
      }
      assert fs[..|fs|] == fs;
    }

    /** `addField(f)` for each of `part` in turn, stopping at an exception: the inner loop of `moveField`. */
    method AddRun(ghost all: seq<Field>, ghost before: seq<Field>, part: seq<Field>) returns (r: Outcome)
      requires Valid() && kind == ManagedSchemaKind
      requires AddAll([], before) == Success(Fields()) && before + part <= all
      modifies this
      ensures Valid()
      ensures kind == old(kind) && name == old(name) && props == old(props) && layers == old(layers)
      ensures r.Pass? ==> AddAll([], before + part) == Success(Fields())
      ensures r.Fail? ==> r == OutcomeOf(AddAll([], all)) && Fields() == Reached([], all)
    {
      var j := 0;
      r := Pass;
      assert before + part[..0] == before;
      while j < |part|
        invariant 0 <= j <= |part| && r == Pass
        invariant Valid()
        invariant kind == old(kind) && name == old(name) && props == old(props) && layers == old(layers)
        invariant AddAll([], before + part[..j]) == Success(Fields())
      {
        ghost var cur := Fields();
        RunStep(all, before, part, j, cur);
        assert Prepared(kind, part[j], NoneValue) == part[j];
        r := AddField(part[j], NoneValue);
        if r.Fail? {
          assert Fields() == cur;
          return;
        }
        j := j + 1;
      }
      assert part[..|part|] == part;
    }

    /**
     * The re-add of `moveSchemata`: for each schemata of `order`, the
     * fields of `fs` in that schemata, stopping at an exception.
     */
    method AddGroups(fs: seq<Field>, order: seq<string>, s0: string) returns (r: Outcome)
      requires Valid() && kind == ManagedSchemaKind && Fields() == []
      modifies this
      ensures Valid()
      ensures kind == old(kind) && name == old(name) && props == old(props) && layers == old(layers)
      ensures r == OutcomeOf(AddAll([], Layout(fs, order, s0, Group(fs, s0))))
      ensures Fields() == Reached([], Layout(fs, order, s0, Group(fs, s0)))
    {
      ghost var all := Layout(fs, order, s0, Group(fs, s0));
      var i := 0;
      r := Pass;
      assert order[..0] == [];
      while i < |order|
        invariant 0 <= i <= |order| && r == Pass
        invariant Valid()
        invariant kind == old(kind) && name == old(name) && props == old(props) && layers == old(layers)
        invariant AddAll([], Layout(fs, order[..i], s0, Group(fs, s0))) == Success(Fields())
      {
        ghost var before := Layout(fs, order[..i], s0, Group(fs, s0));
        LayoutStep(fs, order, s0, Group(fs, s0), i);
        LayoutSnoc(fs, order, s0, Group(fs, s0), i);
        assert Part(fs, order[i], s0, Group(fs, s0)) == Group(fs, order[i]);
        r := AddGroup(all, before, fs, order[i]);
        if r.Fail? {
          return;
        }
        i := i + 1;
      }
      assert order[..|order|] == order;
      ReachedSuccess([], all);
    }

    /**
     * The re-add of `moveField`: for each schemata of `order`, its list
     * in `d`, stopping at an exception; `d` holds the fields of each
     * schemata, except that `s0` has `lst`.
     */
    method AddParts(fs: seq<Field>, order: seq<string>, s0: string, lst: seq<Field>, d: map<string, seq<Field>>) returns (r: Outcome)
      requires Valid() && kind == ManagedSchemaKind && Fields() == []
      requires forall t :: t in order ==> t in d && d[t] == Part(fs, t, s0, lst)
      modifies this
      ensures Valid()
      ensures kind == old(kind) && name == old(name) && props == old(props) && layers == old(layers)
      ensures r == OutcomeOf(AddAll([], Layout(fs, order, s0, lst)))
      ensures Fields() == Reached([], Layout(fs, order, s0, lst))
    {
      ghost var all := Layout(fs, order, s0, lst);
      var i := 0;
      r := Pass;
      assert order[..0] == [];
      while i < |order|
        invariant 0 <= i <= |order| && r == Pass
        invariant Valid()
        invariant kind == old(kind) && name == old(name) && props == old(props) && layers == old(layers)
        invariant AddAll([], Layout(fs, order[..i], s0, lst)) == Success(Fields())
      {
        ghost var before := Layout(fs, order[..i], s0, lst);
        LayoutStep(fs, order, s0, lst, i);
        LayoutSnoc(fs, order, s0, lst, i);
        r := AddRun(all, before, d[order[i]]);
        if r.Fail? {
          return;
        }
        i := i + 1;
      }
      assert order[..|order|] == order;
      ReachedSuccess([], all);
    }

    /**
     * `moveSchemata(s, dir)`: ValueError unless `dir` is -1 or 1, and
     * ValueError (from `list.index`) if `s` is no schemata name.
     * Otherwise `s` moves one place in the schemata order (see `MoveIn`),
     * the schema is initialised afresh and the fields of each schemata
     * are added again in the new order, stopping at an exception (the
     * fields added before it stay).
     */
    method MoveSchemata(s: string, dir: int) returns (r: Outcome)
      requires Valid() && kind == ManagedSchemaKind
      modifies this
      ensures Valid() && kind == old(kind)
      ensures !(dir == -1 || dir == 1) || s !in SchemataNames(old(Fields())) ==>
        && r == Fail(ValueError) && name == old(name) && names == old(names) && fields == old(fields)
        && props == old(props) && layers == old(layers)
      ensures (dir == -1 || dir == 1) && s in SchemataNames(old(Fields())) ==>
        && r == OutcomeOf(AddAll([], MoveSchemataOrder(old(Fields()), s, dir)))
        && Fields() == Reached([], MoveSchemataOrder(old(Fields()), s, dir))
        && name == "default" && props == map[] && layers == []
      ensures (dir == -1 || dir == 1) && s in SchemataNames(old(Fields())) && WellFormed(old(Fields())) ==>
        r == Pass && Fields() == MoveSchemataOrder(old(Fields()), s, dir)
    {
      if dir != -1 && dir != 1 {
        return Fail(ValueError);
      }
      var fs := Fields();
      var schemataNames := GetSchemataNames();
      if s !in schemataNames {
        return Fail(ValueError);
      }
      var order := Moved(schemataNames, Find(schemataNames, s), dir);
      MoveSchemataSpec(fs, s, dir);
      Reinit();
      r := AddGroups(fs, order, s);
      if WellFormed(fs) {
        ReachedSuccess([], MoveSchemataOrder(fs, s, dir));
      }
    }

    /**
     * `moveField(n, dir)`: ValueError unless `dir` is -1 or 1, and
     * KeyError if there is no field `n`. Otherwise the field moves one
     * place among the fields of its schemata (see `MoveIn`), the schema
     * is initialised afresh and the fields of each schemata are added
     * again, in the old schemata order, stopping at an exception (the
     * fields added before it stay).
     */
    method MoveField(n: string, dir: int) returns (r: Outcome)
      requires Valid() && kind == ManagedSchemaKind
      modifies this
      ensures Valid() && kind == old(kind)
      ensures !(dir == -1 || dir == 1) || n !in old(names) ==>
        && r == Fail(if dir == -1 || dir == 1 then KeyError else ValueError)
        && name == old(name) && names == old(names) && fields == old(fields) && props == old(props) && layers == old(layers)
      ensures (dir == -1 || dir == 1) && n in old(names) ==>
        && r == OutcomeOf(AddAll([], MoveFieldOrder(old(Fields()), n, dir)))
        && Fields() == Reached([], MoveFieldOrder(old(Fields()), n, dir))
        && name == "default" && props == map[] && layers == []
      ensures (dir == -1 || dir == 1) && n in old(names) && WellFormed(old(Fields())) ==>
        r == Pass && Fields() == MoveFieldOrder(old(Fields()), n, dir)
    {
      if dir != -1 && dir != 1 {
        return Fail(ValueError);
      }
      var fs := Fields();
      var schemataNames := GetSchemataNames();
      if n !in fields {
        return Fail(KeyError);
      }
      var field := fields[n];
      FieldsAt(names, fields, Find(names, n));
      MoveFieldSetup(fs, n, dir, field);
      MoveFieldSpec(fs, n, dir);
      var d, lst := MovedParts(fs, schemataNames, field.schemata, field.name, dir);
      Reinit();
      r := AddParts(fs, schemataNames, field.schemata, lst, d);
      if WellFormed(fs) {
        ReachedSuccess([], MoveFieldOrder(fs, n, dir));
      }
    }
  }
}
