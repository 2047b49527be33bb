/**
 * What the read-only queries and the orchestration loops of a schema
 * compute, as functions of its field sequence: `filterFields`,
 * `editableFields`, `searchable`, the field selection and error map of
 * `validate`, and the mutator calls of `updateAll`. The behaviour of a
 * field that the schema only calls into (`writeable`, `validate`, the
 * widget's `process_form`, the accessors) is a parameter.
 */
module Queries {
  import opened Py
  import opened Seqs
  import opened Fields

  // ---------------------------------------------------------------------
  // filterFields

  /**
   * `filterFields(*preds, **values)` keeps `f`: every predicate holds, and
   * every named attribute is present and `==` the given value.
   */
  predicate Matches(f: Field, preds: seq<Field -> bool>, values: map<string, Value>)
  {
    && (forall k :: 0 <= k < |preds| ==> preds[k](f))
    && (forall a :: a in values ==> Attr(f, a).Some? && Equal(Attr(f, a).value, values[a]))
  }

  function MatchesFn(preds: seq<Field -> bool>, values: map<string, Value>): Field -> bool
  {
    (f: Field) => Matches(f, preds, values)
  }

  /** Filtering a container with unique names keeps the container's order. */
  lemma {:induction false} FilterKeepsOrder(fs: seq<Field>, p: Field -> bool)
    requires UniqueNames(fs)
    ensures forall i :: 0 <= i < |Filter(fs, p)| ==> Filter(fs, p)[i] in fs
    ensures forall i, j :: 0 <= i < j < |Filter(fs, p)| ==> Find(fs, Filter(fs, p)[i]) < Find(fs, Filter(fs, p)[j])
  {
    UniqueNamesDistinct(fs);
    FilterOrdered(fs, p);
  }

  /**
   * `filterFields`: the result lists exactly the fields of the container
   * that match (a field without one of the named attributes never
   * does), in the container's order.
   */
  lemma FilterFieldsSpec(fs: seq<Field>, preds: seq<Field -> bool>, values: map<string, Value>)
    requires UniqueNames(fs)
    ensures var r := Filter(fs, MatchesFn(preds, values));
      && (forall i :: 0 <= i < |r| ==> r[i] in fs && Matches(r[i], preds, values))
      && (forall i :: 0 <= i < |fs| && Matches(fs[i], preds, values) ==> fs[i] in r)
      && (forall i, a :: 0 <= i < |r| && a in values ==> Attr(r[i], a).Some?)
      && (forall i, j :: 0 <= i < j < |r| ==> Find(fs, r[i]) < Find(fs, r[j]))
  {
    var r := Filter(fs, MatchesFn(preds, values));
    FilterIn(fs, MatchesFn(preds, values));
    FilterKeepsOrder(fs, MatchesFn(preds, values));
    forall i | 0 <= i < |fs| && Matches(fs[i], preds, values) ensures fs[i] in r {
      assert MatchesFn(preds, values)(fs[i]);
    }
    forall i | 0 <= i < |r| ensures Matches(r[i], preds, values) {
      assert MatchesFn(preds, values)(r[i]);
    }
  }

  // ---------------------------------------------------------------------
  // editableFields and searchable

  /**
   * `editableFields(instance, visible_only)` keeps `f`: it is writeable
   * for the instance and, when only visible fields are asked for, its
   * widget is not hidden in edit mode.
   */
  function EditableFn(writeable: Field -> bool, visibleOnly: bool, hiddenOnEdit: Field -> bool): Field -> bool
  {
    (f: Field) => writeable(f) && (!visibleOnly || !hiddenOnEdit(f))
  }

  /**
   * `searchable()`: reading `f.searchable` raises AttributeError for a
   * field without that attribute; otherwise the names of the searchable
   * fields, one per field, in container order.
   */
  function SearchableNames(fs: seq<Field>): (r: Result<seq<string>>)
    ensures r.Failure? <==> exists i :: 0 <= i < |fs| && Attr(fs[i], "searchable").None?
    ensures r.Failure? ==> r.error == AttributeError
    ensures r.Success? ==> r.value == Names(Filter(fs, IsSearchable)) && |r.value| <= |fs|
    ensures r.Success? ==> forall i :: 0 <= i < |fs| && IsSearchable(fs[i]) ==> fs[i].name in r.value
    ensures r.Success? ==> forall n :: n in r.value ==> exists i :: 0 <= i < |fs| && fs[i].name == n && IsSearchable(fs[i])
  {
    if fs == [] then Success([])
    else
      var front, last := fs[..|fs| - 1], fs[|fs| - 1];
      assert fs == front + [last];
      var r0 := SearchableNames(front);
      if r0.Failure? then
        var i :| 0 <= i < |front| && Attr(front[i], "searchable").None?;
        assert fs[i] == front[i];
        r0
      else if Attr(last, "searchable").None? then
        Failure(AttributeError)
      else
        forall i | 0 <= i < |fs| ensures Attr(fs[i], "searchable").Some? {
          if i < |front| { assert fs[i] == front[i]; }
        }
        forall n | n in r0.value ensures exists i :: 0 <= i < |fs| && fs[i].name == n && IsSearchable(fs[i]) {
          var i :| 0 <= i < |front| && front[i].name == n && IsSearchable(front[i]);
          assert fs[i] == front[i];
        }
        FilterSnoc(front, last, IsSearchable);
        NamesAppend(Filter(front, IsSearchable), if IsSearchable(last) then [last] else []);
        Success(r0.value + (if IsSearchable(last) then [last.name] else []))
  }

  // ---------------------------------------------------------------------
  // validate

  /** `filterFields(isMetadata=v)`. */
  function MetadataIs(v: int): Field -> bool
  {
    MatchesFn([], map["isMetadata" := Int(v)])
  }

  /**
   * The fields `validate` looks at. With a request whose form names a
   * `fieldset`, the fields of that schemata of the instance (`groups`
   * stands for `instance.Schemata()`), and KeyError if there is none;
   * otherwise the non-metadata fields if `data` is true, then the
   * metadata fields if `metadata` is true.
   */
  function Selected(fs: seq<Field>, form: Option<map<string, Value>>, groups: map<string, seq<Field>>,
                    data: Value, metadata: Value): (r: Result<seq<Field>>)
    ensures r.Failure? ==> r.error == KeyError
  {
    var fieldset := if form.Some? && "fieldset" in form.value then form.value["fieldset"] else NoneValue;
    if fieldset != NoneValue then
      if Text(fieldset).Some? && Text(fieldset).value in groups then Success(groups[Text(fieldset).value]) else Failure(KeyError)
    else
      Success((if Truthy(data) then Filter(fs, MetadataIs(0)) else []) +
              (if Truthy(metadata) then Filter(fs, MetadataIs(1)) else []))
  }

  /** The field has an `isMetadata` attribute `==` 0 and `data` is set, or `==` 1 and `metadata` is set. */
  predicate WantedByFlags(f: Field, data: Value, metadata: Value)
  {
    var m := Attr(f, "isMetadata");
    m.Some? && ((Truthy(data) && Equal(m.value, Int(0))) || (Truthy(metadata) && Equal(m.value, Int(1))))
  }

  /**
   * `validate` without a `fieldset` selects exactly the container's
   * fields wanted by the `data` and `metadata` flags; a field whose
   * `isMetadata` is missing is never selected.
   */
  lemma SelectedWithoutFieldset(fs: seq<Field>, form: Option<map<string, Value>>, groups: map<string, seq<Field>>,
                                data: Value, metadata: Value)
    requires form.None? || "fieldset" !in form.value || form.value["fieldset"] == NoneValue
    ensures Selected(fs, form, groups, data, metadata).Success?
    ensures forall f :: f in Selected(fs, form, groups, data, metadata).value <==> f in fs && WantedByFlags(f, data, metadata)
  {
    var r := Selected(fs, form, groups, data, metadata).value;
    forall f ensures f in r <==> f in fs && WantedByFlags(f, data, metadata) {
      FilterHas(fs, MetadataIs(0), f);
      FilterHas(fs, MetadataIs(1), f);
      MetadataIsAt(0, f);
      MetadataIsAt(1, f);
    }
  }

  lemma MetadataIsAt(v: int, f: Field)
    ensures MetadataIs(v)(f) == (Attr(f, "isMetadata").Some? && Equal(Attr(f, "isMetadata").value, Int(v)))
  {
    assert MetadataIs(v)(f) == Matches(f, [], map["isMetadata" := Int(v)]);
  }

  /**
   * The value `validate` checks for `f`: what the widget makes of a
   * non-empty form (`processForm`, `None` standing for both `None` and
   * the empty marker), else what the field's accessor returns; `None`
   * if there is no accessor either, and the field is skipped.
   */
  function CheckedValue(f: Field, formGiven: bool, processForm: Field -> Option<Value>,
                        accessor: Field -> Option<Value>): Option<Value>
  {
    var result := if formGiven then processForm(f) else None;
    if result.Some? then result else accessor(f)
  }

  /** The error `validate` records for `f`: the field's verdict on its value, if truthy. */
  function Verdict(f: Field, formGiven: bool, processForm: Field -> Option<Value>,
                   accessor: Field -> Option<Value>, check: (Field, Value) -> Value): Option<Value>
  {
    match CheckedValue(f, formGiven, processForm, accessor)
    case None => None
    case Some(v) => if Truthy(check(f, v)) then Some(check(f, v)) else None
  }

  /** The error map after `validate` has visited the fields `fs`, starting from `errors`. */
  function Validated(errors: map<string, Value>, fs: seq<Field>, formGiven: bool, processForm: Field -> Option<Value>,
                     accessor: Field -> Option<Value>, check: (Field, Value) -> Value): map<string, Value>
  {
    if fs == [] then errors
    else
      var e := Validated(errors, fs[..|fs| - 1], formGiven, processForm, accessor, check);
      var last := fs[|fs| - 1];
      match Verdict(last, formGiven, processForm, accessor, check)
      case None => e
      case Some(err) => e[last.name := err]
  }

  /**
   * `validate` records an error exactly under the names of the visited
   * fields with a truthy verdict: a name has an entry afterwards iff it
   * had one before or such a field carries it; a name no such field
   * carries keeps its old entry; and the entry of a field with a truthy
   * verdict is that verdict, unless a later field of the same name
   * overrides it. A field with neither a form value nor an accessor has
   * no verdict and changes nothing.
   */
  lemma ValidatedSpec(errors: map<string, Value>, fs: seq<Field>, formGiven: bool,
                                         processForm: Field -> Option<Value>, accessor: Field -> Option<Value>,
                                         check: (Field, Value) -> Value)
    ensures var r := Validated(errors, fs, formGiven, processForm, accessor, check);
      forall n :: n in r <==> n in errors || exists i :: 0 <= i < |fs| && fs[i].name == n && Verdict(fs[i], formGiven, processForm, accessor, check).Some?
    ensures var r := Validated(errors, fs, formGiven, processForm, accessor, check);
      forall n :: n in errors && (forall i :: 0 <= i < |fs| && fs[i].name == n ==> Verdict(fs[i], formGiven, processForm, accessor, check).None?) ==> n in r && r[n] == errors[n]
    ensures var r := Validated(errors, fs, formGiven, processForm, accessor, check);
      forall i :: 0 <= i < |fs| && Verdict(fs[i], formGiven, processForm, accessor, check).Some? && LastOfName(fs, i) ==>
        fs[i].name in r && r[fs[i].name] == Verdict(fs[i], formGiven, processForm, accessor, check).value
  {
    ValidatedKeys(errors, fs, formGiven, processForm, accessor, check);
    ValidatedKept(errors, fs, formGiven, processForm, accessor, check);
    ValidatedLast(errors, fs, formGiven, processForm, accessor, check);
  }

  /** The names with an entry after `validate`: those with one before and those of fields with a truthy verdict. */
  lemma {:induction false} ValidatedKeys(errors: map<string, Value>, fs: seq<Field>, formGiven: bool,
                                         processForm: Field -> Option<Value>, accessor: Field -> Option<Value>,
                                         check: (Field, Value) -> Value)
    ensures var r := Validated(errors, fs, formGiven, processForm, accessor, check);
      forall n :: n in r <==> n in errors || exists i :: 0 <= i < |fs| && fs[i].name == n && Verdict(fs[i], formGiven, processForm, accessor, check).Some?
  {
    if fs != [] {
      var front := fs[..|fs| - 1];
      ValidatedKeys(errors, front, formGiven, processForm, accessor, check);
      forall i | 0 <= i < |front| ensures fs[i] == front[i] {}
    }
  }

  /** A name no field with a truthy verdict carries keeps its entry. */
  lemma {:induction false} ValidatedKept(errors: map<string, Value>, fs: seq<Field>, formGiven: bool,
                                         processForm: Field -> Option<Value>, accessor: Field -> Option<Value>,
                                         check: (Field, Value) -> Value)
    ensures var r := Validated(errors, fs, formGiven, processForm, accessor, check);
      forall n :: n in errors && (forall i :: 0 <= i < |fs| && fs[i].name == n ==> Verdict(fs[i], formGiven, processForm, accessor, check).None?) ==> n in r && r[n] == errors[n]
  {
    if fs != [] {
      var front := fs[..|fs| - 1];
      ValidatedKept(errors, front, formGiven, processForm, accessor, check);
      forall i | 0 <= i < |front| ensures fs[i] == front[i] {}
    }
  }

  /** The last field of a name with a truthy verdict has that verdict recorded. */
  lemma {:induction false} ValidatedLast(errors: map<string, Value>, fs: seq<Field>, formGiven: bool,
                                         processForm: Field -> Option<Value>, accessor: Field -> Option<Value>,
                                         check: (Field, Value) -> Value)
    ensures var r := Validated(errors, fs, formGiven, processForm, accessor, check);
      forall i :: 0 <= i < |fs| && Verdict(fs[i], formGiven, processForm, accessor, check).Some? && LastOfName(fs, i) ==>
        fs[i].name in r && r[fs[i].name] == Verdict(fs[i], formGiven, processForm, accessor, check).value
  {
    if fs != [] {
      var front, last := fs[..|fs| - 1], fs[|fs| - 1];
      ValidatedLast(errors, front, formGiven, processForm, accessor, check);
      ValidatedKeys(errors, front, formGiven, processForm, accessor, check);
      var r := Validated(errors, fs, formGiven, processForm, accessor, check);
      var V := (f: Field) => Verdict(f, formGiven, processForm, accessor, check);
      forall i | 0 <= i < |fs| && V(fs[i]).Some? && LastOfName(fs, i)
        ensures fs[i].name in r && r[fs[i].name] == V(fs[i]).value
      {
        if i < |front| {
          assert fs[i] == front[i];
          LastOfNamePrefix(fs, i);
        }
      }
    }
  }

  /** No field after position `i` has the name of the field at `i`. */
  ghost predicate LastOfName(fs: seq<Field>, i: nat)
    requires i < |fs|
  {
    forall j :: i < j < |fs| ==> fs[j].name != fs[i].name
  }

  lemma LastOfNamePrefix(fs: seq<Field>, i: nat)
    requires i < |fs| - 1 && LastOfName(fs, i)
    ensures LastOfName(fs[..|fs| - 1], i) && fs[|fs| - 1].name != fs[i].name
  {
  }

  /** In a container with unique names every field is the last of its name. */
  lemma UniqueLast(fs: seq<Field>, i: nat)
    requires UniqueNames(fs) && i < |fs|
    ensures LastOfName(fs, i)
  {
    forall j | i < j < |fs| ensures fs[j].name != fs[i].name {
      assert Names(fs)[j] == fs[j].name && Names(fs)[i] == fs[i].name;
    }
  }

  // ---------------------------------------------------------------------
  // updateAll

  /** A field is updated: its name is a keyword argument and it is writeable for the instance. */
  function UpdatedFn(kwargs: map<string, Value>, writeable: Field -> bool): Field -> bool
  {
    (f: Field) => f.name in kwargs && writeable(f)
  }

  /** The mutator calls `updateAll` makes, in order: the field and the value passed to its mutator. */
  function Mutations(fs: seq<Field>, kwargs: map<string, Value>, writeable: Field -> bool): seq<(Field, Value)>
  {
    if fs == [] then []
    else
      var last := fs[|fs| - 1];
      Mutations(fs[..|fs| - 1], kwargs, writeable) +
        (if last.name in kwargs && writeable(last) then [(last, kwargs[last.name])] else [])
  }

  /** One field more of `updateAll`'s loop adds its call if it has a keyword argument and is writeable. */
  lemma MutationsTake(fs: seq<Field>, i: nat, kwargs: map<string, Value>, writeable: Field -> bool)
    requires i < |fs|
    ensures Mutations(fs[..i + 1], kwargs, writeable) ==
      Mutations(fs[..i], kwargs, writeable) + (if fs[i].name in kwargs && writeable(fs[i]) then [(fs[i], kwargs[fs[i].name])] else [])
  {
    var t := fs[..i + 1];
    assert t[..|t| - 1] == fs[..i];
    assert t[|t| - 1] == fs[i];
  }

  /** Each field of `gs` with the keyword value for its name. */
  function CallsFor(gs: seq<Field>, kwargs: map<string, Value>): seq<(Field, Value)>
    requires forall i :: 0 <= i < |gs| ==> gs[i].name in kwargs
  {
    seq(|gs|, i requires 0 <= i < |gs| => (gs[i], kwargs[gs[i].name]))
  }

  lemma {:induction false} MutationsAreCalls(fs: seq<Field>, kwargs: map<string, Value>, writeable: Field -> bool)
    ensures forall i :: 0 <= i < |Filter(fs, UpdatedFn(kwargs, writeable))| ==> Filter(fs, UpdatedFn(kwargs, writeable))[i].name in kwargs
    ensures Mutations(fs, kwargs, writeable) == CallsFor(Filter(fs, UpdatedFn(kwargs, writeable)), kwargs)
  {
    var p := UpdatedFn(kwargs, writeable);
    FilterIn(fs, p);
    forall i | 0 <= i < |Filter(fs, p)| ensures Filter(fs, p)[i].name in kwargs {
      assert p(Filter(fs, p)[i]);
    }
    if fs != [] {
      var front, last := fs[..|fs| - 1], fs[|fs| - 1];
      MutationsAreCalls(front, kwargs, writeable);
      assert p(last) == (last.name in kwargs && writeable(last));
    }
  }

  /**
   * `updateAll`: the mutator of every writeable field named among the
   * keyword arguments is called with that argument, once, in field
   * order; no other mutator is called.
   */
  lemma UpdateAllSpec(fs: seq<Field>, kwargs: map<string, Value>, writeable: Field -> bool)
    requires UniqueNames(fs)
    ensures var r := Mutations(fs, kwargs, writeable);
      && (forall i :: 0 <= i < |r| ==> r[i].0 in fs && r[i].0.name in kwargs && writeable(r[i].0) && r[i].1 == kwargs[r[i].0.name])
      && (forall i :: 0 <= i < |fs| && fs[i].name in kwargs && writeable(fs[i]) ==> multiset(r)[(fs[i], kwargs[fs[i].name])] == 1)
      && (forall i, j :: 0 <= i < j < |r| ==> Find(fs, r[i].0) < Find(fs, r[j].0))
  {
    MutationsValid(fs, kwargs, writeable);
    MutationsOnce(fs, kwargs, writeable);
    MutationsOrdered(fs, kwargs, writeable);
  }

  /** Every mutator call is for a writeable field named among the keyword arguments, with that argument. */
  lemma MutationsValid(fs: seq<Field>, kwargs: map<string, Value>, writeable: Field -> bool)
    ensures var r := Mutations(fs, kwargs, writeable);
      forall i :: 0 <= i < |r| ==> r[i].0 in fs && r[i].0.name in kwargs && writeable(r[i].0) && r[i].1 == kwargs[r[i].0.name]
  {
    var p := UpdatedFn(kwargs, writeable);
    FilterIn(fs, p);
    MutationsAreCalls(fs, kwargs, writeable);
    var g := Filter(fs, p);
    var r := Mutations(fs, kwargs, writeable);
    forall i | 0 <= i < |r| ensures r[i].0 in fs && r[i].0.name in kwargs && writeable(r[i].0) && r[i].1 == kwargs[r[i].0.name] {
      assert r[i].0 == g[i] && p(g[i]);
    }
  }

  /** Each writeable field named among the keyword arguments has its mutator called exactly once. */
  lemma MutationsOnce(fs: seq<Field>, kwargs: map<string, Value>, writeable: Field -> bool)
    requires UniqueNames(fs)
    ensures var r := Mutations(fs, kwargs, writeable);
      forall i :: 0 <= i < |fs| && fs[i].name in kwargs && writeable(fs[i]) ==> multiset(r)[(fs[i], kwargs[fs[i].name])] == 1
  {
    var p := UpdatedFn(kwargs, writeable);
    FilterIn(fs, p);
    MutationsAreCalls(fs, kwargs, writeable);
    var g := Filter(fs, p);
    var r := Mutations(fs, kwargs, writeable);
    UniqueNamesDistinct(fs);
    DistinctFilter(fs, p);
    assert Distinct(r) by {
      forall i, j | 0 <= i < j < |r| ensures r[i] != r[j] {
        assert r[i].0 == g[i] && r[j].0 == g[j];
      }
    }
    forall i | 0 <= i < |fs| && fs[i].name in kwargs && writeable(fs[i]) ensures multiset(r)[(fs[i], kwargs[fs[i].name])] == 1 {
      assert p(fs[i]);
      var k := Find(g, fs[i]);
      assert r[k] == (fs[i], kwargs[fs[i].name]);
      DistinctCount(r, r[k]);
    }
  }

  /** The mutator calls follow the field order. */
  lemma MutationsOrdered(fs: seq<Field>, kwargs: map<string, Value>, writeable: Field -> bool)
    requires UniqueNames(fs)
    ensures var r := Mutations(fs, kwargs, writeable);
      (forall i :: 0 <= i < |r| ==> r[i].0 in fs) &&
      forall i, j :: 0 <= i < j < |r| ==> Find(fs, r[i].0) < Find(fs, r[j].0)
  {
    var p := UpdatedFn(kwargs, writeable);
    MutationsAreCalls(fs, kwargs, writeable);
    FilterKeepsOrder(fs, p);
  }
}
