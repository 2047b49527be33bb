/**
 * Layers: the layer registry of a schema or a field (name -> object,
 * one entry per name, in registration order), and the calls
 * `initializeLayers` and `cleanupLayers` make on the registered layer
 * objects, recorded as a trace of events.
 */
module Layers {
  import opened Py
  import opened Seqs
  import opened Fields

  // ---------------------------------------------------------------------
  // The registry

  /** The names registered in `ls`, in order. */
  function LayerNames(ls: seq<LayerEntry>): seq<string>
  {
    seq(|ls|, i requires 0 <= i < |ls| => ls[i].0)
  }

  /** `registerLayer(name, obj)`: a registered name gets the new object in place, a new name is appended. */
  function RegisterLayer(ls: seq<LayerEntry>, name: string, obj: Value): seq<LayerEntry>
  {
    if name in LayerNames(ls) then ls[Find(LayerNames(ls), name) := (name, obj)] else ls + [(name, obj)]
  }

  /** `registerLayer` for each entry of `es` in turn. */
  function RegisterAll(ls: seq<LayerEntry>, es: seq<LayerEntry>): seq<LayerEntry>
  {
    if es == [] then ls
    else
      var e := es[|es| - 1];
      RegisterLayer(RegisterAll(ls, es[..|es| - 1]), e.0, e.1)
  }

  /** The object registered under `name`, if any. */
  function LayerLookup(ls: seq<LayerEntry>, name: string): Option<Value>
  {
    if name in LayerNames(ls) then Some(ls[Find(LayerNames(ls), name)].1) else None
  }

  /**
   * The registry of `a + b` (`SchemaLayerContainer.__add__` and
   * `Schema.__add__`): `a`'s entries, then `b`'s, collected under their
   * names, then registered on the new container.
   */
  function MergeLayers(a: seq<LayerEntry>, b: seq<LayerEntry>): seq<LayerEntry>
  {
    RegisterAll([], RegisterAll(RegisterAll([], a), b))
  }

  /** The registry of a copy: every entry registered again. */
  function CopyLayers(a: seq<LayerEntry>): seq<LayerEntry>
  {
    RegisterAll([], a)
  }

  lemma LayerLookupAt(ls: seq<LayerEntry>, k: nat)
    requires Distinct(LayerNames(ls)) && k < |ls|
    ensures LayerLookup(ls, ls[k].0) == Some(ls[k].1)
  {
    assert LayerNames(ls)[k] == ls[k].0;
    FindDistinct(LayerNames(ls), k);
  }

  /**
   * Registering is a dictionary write: names stay unique, `name` finds
   * `obj`, every other name finds what it found before.
   */
  lemma RegisterSpec(ls: seq<LayerEntry>, name: string, obj: Value)
    requires Distinct(LayerNames(ls))
    ensures Distinct(LayerNames(RegisterLayer(ls, name, obj)))
    ensures LayerLookup(RegisterLayer(ls, name, obj), name) == Some(obj)
    ensures forall n :: n != name ==> LayerLookup(RegisterLayer(ls, name, obj), n) == LayerLookup(ls, n)
    ensures name in LayerNames(ls) ==> LayerNames(RegisterLayer(ls, name, obj)) == LayerNames(ls)
    ensures name !in LayerNames(ls) ==> LayerNames(RegisterLayer(ls, name, obj)) == LayerNames(ls) + [name]
  {
    var r := RegisterLayer(ls, name, obj);
    if name in LayerNames(ls) {
      var k := Find(LayerNames(ls), name);
      assert LayerNames(r) == LayerNames(ls);
      LayerLookupAt(r, k);
    } else {
      assert LayerNames(r) == LayerNames(ls) + [name];
      LayerLookupAt(r, |ls|);
    }
    forall n | n != name ensures LayerLookup(r, n) == LayerLookup(ls, n) {
      if n in LayerNames(ls) {
        var j := Find(LayerNames(ls), n);
        LayerLookupAt(ls, j);
        LayerLookupAt(r, j);
      }
    }
  }

  /** What one name finds after a registration. */
  lemma RegisterLookup(ls: seq<LayerEntry>, name: string, obj: Value, n: string)
    requires Distinct(LayerNames(ls))
    ensures LayerLookup(RegisterLayer(ls, name, obj), n) == if n == name then Some(obj) else LayerLookup(ls, n)
  {
    RegisterSpec(ls, name, obj);
  }

  /** A registered name finds the object just registered, whatever the registry held. */
  lemma RegisterFinds(ls: seq<LayerEntry>, name: string, obj: Value)
    ensures LayerLookup(RegisterLayer(ls, name, obj), name) == Some(obj)
  {
    var r := RegisterLayer(ls, name, obj);
    if name in LayerNames(ls) {
      assert LayerNames(r) == LayerNames(ls);
    } else {
      assert LayerNames(r) == LayerNames(ls) + [name];
      assert LayerNames(r)[..|ls|] == LayerNames(ls);
      FindUnique(LayerNames(r), name, |ls|);
    }
  }

  /** After registering `es` in turn, a name finds the last object `es` gave it, or what it found before. */
  lemma RegisterAllSpec(ls: seq<LayerEntry>, es: seq<LayerEntry>)
    requires Distinct(LayerNames(ls))
    ensures Distinct(LayerNames(RegisterAll(ls, es)))
    ensures forall n :: LayerLookup(RegisterAll(ls, es), n) == (if n in LayerNames(es) then LayerLookup(RegisterAll([], es), n) else LayerLookup(ls, n))
    ensures forall n :: n in LayerNames(RegisterAll(ls, es)) <==> n in LayerNames(ls) || n in LayerNames(es)
  {
    RegisterAllNames(ls, es);
    forall n ensures LayerLookup(RegisterAll(ls, es), n) == (if n in LayerNames(es) then LayerLookup(RegisterAll([], es), n) else LayerLookup(ls, n)) {
      RegisterAllLookup(ls, es, n);
    }
  }

  /** Registering `es` in turn keeps the names unique and adds the names of `es`. */
  lemma {:induction false} RegisterAllNames(ls: seq<LayerEntry>, es: seq<LayerEntry>)
    requires Distinct(LayerNames(ls))
    ensures Distinct(LayerNames(RegisterAll(ls, es)))
    ensures forall n :: n in LayerNames(RegisterAll(ls, es)) <==> n in LayerNames(ls) || n in LayerNames(es)
    decreases |es|
  {
    if es != [] {
      var init, e := es[..|es| - 1], es[|es| - 1];
      RegisterAllNames(ls, init);
      RegisterSpec(RegisterAll(ls, init), e.0, e.1);
      assert LayerNames(es) == LayerNames(init) + [e.0];
    }
  }

  /** What one name finds after registering `es` in turn. */
  lemma {:induction false} RegisterAllLookup(ls: seq<LayerEntry>, es: seq<LayerEntry>, n: string)
    requires Distinct(LayerNames(ls))
    ensures LayerLookup(RegisterAll(ls, es), n) == (if n in LayerNames(es) then LayerLookup(RegisterAll([], es), n) else LayerLookup(ls, n))
    decreases |es|
  {
    if es != [] {
      var init, e := es[..|es| - 1], es[|es| - 1];
      var a, b := RegisterAll(ls, init), RegisterAll([], init);
      assert RegisterAll(ls, es) == RegisterLayer(a, e.0, e.1);
      assert RegisterAll([], es) == RegisterLayer(b, e.0, e.1);
      RegisterAllNames(ls, init);
      RegisterAllNames([], init);
      RegisterLookup(a, e.0, e.1, n);
      RegisterLookup(b, e.0, e.1, n);
      assert LayerNames(es) == LayerNames(init) + [e.0];
      if n != e.0 {
        RegisterAllLookup(ls, init, n);
        RegisterAllLookup([], init, n);
        assert n in LayerNames(es) <==> n in LayerNames(init);
      }
    }
  }

  lemma LayerNamesSnoc(ls: seq<LayerEntry>, e: LayerEntry)
    ensures LayerNames(ls + [e]) == LayerNames(ls) + [e.0]
  {
  }

  /** Registering entries under new names appends them. */
  lemma {:induction false} RegisterFresh(ls: seq<LayerEntry>, es: seq<LayerEntry>)
    requires Distinct(LayerNames(ls + es))
    ensures RegisterAll(ls, es) == ls + es
    decreases |es|
  {
    if es == [] {
      assert ls + es == ls;
    } else {
      var front, e := es[..|es| - 1], es[|es| - 1];
      assert ls + es == (ls + front) + [e];
      LayerNamesSnoc(ls + front, e);
      DistinctUnsnoc(LayerNames(ls + front), e.0);
      RegisterFresh(ls, front);
      assert RegisterLayer(ls + front, e.0, e.1) == (ls + front) + [e];
    }
  }

  /** Re-registering a registry with unique names gives it back. */
  lemma CopyLayersSpec(a: seq<LayerEntry>)
    requires Distinct(LayerNames(a))
    ensures CopyLayers(a) == a
  {
    assert [] + a == a;
    RegisterFresh([], a);
  }

  /**
   * `a + b` on registries: names stay unique, the names are those of
   * either side, and a name registered in `b` finds `b`'s object (the
   * right-hand side overrides), any other `a`'s.
   */
  lemma MergeLayersSpec(a: seq<LayerEntry>, b: seq<LayerEntry>)
    ensures Distinct(LayerNames(MergeLayers(a, b)))
    ensures forall n :: n in LayerNames(MergeLayers(a, b)) <==> n in LayerNames(a) || n in LayerNames(b)
    ensures forall n :: LayerLookup(MergeLayers(a, b), n) == (if n in LayerNames(b) then LayerLookup(RegisterAll([], b), n) else LayerLookup(RegisterAll([], a), n))
  {
    RegisterAllSpec([], a);
    var d := RegisterAll(RegisterAll([], a), b);
    RegisterAllSpec(RegisterAll([], a), b);
    CopyLayersSpec(d);
  }

  // ---------------------------------------------------------------------
  // The calls on layer objects

  /** `ILayer.isImplementedBy(obj)`. */
  predicate IsLayer(e: LayerEntry)
  {
    e.1.Obj? && e.1.isLayer
  }

  /** The pairs of `es` whose object is a layer, in order. */
  function LayerPairs(es: seq<LayerEntry>): seq<LayerEntry>
  {
    if es == [] then [] else LayerPairs(es[..|es| - 1]) + (if IsLayer(es[|es| - 1]) then [es[|es| - 1]] else [])
  }

  lemma LayerPairsSnoc(es: seq<LayerEntry>, e: LayerEntry)
    ensures LayerPairs(es + [e]) == LayerPairs(es) + (if IsLayer(e) then [e] else [])
  {
    assert (es + [e])[..|es|] == es;
  }

  /** A pair is among the layer pairs as often as it is in the list, if it is a layer, and never otherwise. */
  lemma {:induction false} LayerPairsCount(es: seq<LayerEntry>, e: LayerEntry)
    ensures multiset(LayerPairs(es))[e] == if IsLayer(e) then multiset(es)[e] else 0
  {
    if es != [] {
      var front := es[..|es| - 1];
      assert es == front + [es[|es| - 1]];
      LayerPairsCount(front, e);
    }
  }

  /** A call made on a layer object (the instance, item and container arguments are passed through unchanged). */
  datatype Event =
    | InitializeInstance(entry: LayerEntry)
    | InitializeField(entry: LayerEntry, field: Field)
    | CleanupField(entry: LayerEntry, field: Field)
    | CleanupInstance(entry: LayerEntry)

  /** One registration of a layer on a field. */
  type Occurrence = (LayerEntry, Field)

  /** The registrations of the layers of `f`, in order. */
  function LayersOf(f: Field): seq<Occurrence>
  {
    seq(|f.layers|, k requires 0 <= k < |f.layers| => (f.layers[k], f))
  }

  /** The layer registrations of the fields, field by field. */
  function Occurrences(fs: seq<Field>): seq<Occurrence>
  {
    if fs == [] then [] else Occurrences(fs[..|fs| - 1]) + LayersOf(fs[|fs| - 1])
  }

  lemma OccurrencesStep(fs: seq<Field>, i: nat)
    requires i < |fs|
    ensures Occurrences(fs[..i + 1]) == Occurrences(fs[..i]) + LayersOf(fs[i])
  {
    assert fs[..i + 1][..i] == fs[..i];
  }

  lemma RegistrationBounds(os: seq<Occurrence>, f: Field)
    ensures os + LayersOf(f)[..0] == os
    ensures LayersOf(f)[..|f.layers|] == LayersOf(f)
  {
    assert LayersOf(f)[..0] == [];
  }

  /** One registration more of `f` is one more step of either run. */
  lemma RegistrationStep(os: seq<Occurrence>, f: Field, j: nat)
    requires j < |f.layers|
    ensures InitFields(os + LayersOf(f)[..j + 1]) == InitStep(InitFields(os + LayersOf(f)[..j]), (f.layers[j], f))
    ensures CleanupFields(os + LayersOf(f)[..j + 1]) == CleanupStep(CleanupFields(os + LayersOf(f)[..j]), (f.layers[j], f))
  {
    var pre := os + LayersOf(f)[..j];
    assert os + LayersOf(f)[..j + 1] == pre + [(f.layers[j], f)];
    assert (pre + [(f.layers[j], f)])[..|pre|] == pre;
  }

  /** The entries of the registrations, in order. */
  function Entries(os: seq<Occurrence>): seq<LayerEntry>
  {
    seq(|os|, i requires 0 <= i < |os| => os[i].0)
  }

  /** The registrations whose object is a layer. */
  function LayerOccurrences(os: seq<Occurrence>): seq<Occurrence>
  {
    if os == [] then []
    else LayerOccurrences(os[..|os| - 1]) + (if IsLayer(os[|os| - 1].0) then [os[|os| - 1]] else [])
  }

  /** A run in progress: the calls made so far and the pairs already handled, in order. */
  datatype Run = Run(trace: seq<Event>, seen: seq<LayerEntry>)

  /** `initializeLayers`, one field registration: the first call for a pair initializes the instance. */
  function InitStep(st: Run, o: Occurrence): Run
  {
    if !IsLayer(o.0) then st
    else if o.0 in st.seen then Run(st.trace + [InitializeField(o.0, o.1)], st.seen)
    else Run(st.trace + [InitializeInstance(o.0)] + [InitializeField(o.0, o.1)], st.seen + [o.0])
  }

  /** `initializeLayers`, the loop over the fields' registrations. */
  function InitFields(os: seq<Occurrence>): Run
  {
    if os == [] then Run([], []) else InitStep(InitFields(os[..|os| - 1]), os[|os| - 1])
  }

  /** `cleanupLayers`, one field registration: queue the pair once, clean the field up if it is a layer. */
  function CleanupStep(st: Run, o: Occurrence): Run
  {
    Run(if IsLayer(o.0) then st.trace + [CleanupField(o.0, o.1)] else st.trace,
        if o.0 in st.seen then st.seen else st.seen + [o.0])
  }

  /** `cleanupLayers`, the loop over the fields' registrations. */
  function CleanupFields(os: seq<Occurrence>): Run
  {
    if os == [] then Run([], []) else CleanupStep(CleanupFields(os[..|os| - 1]), os[|os| - 1])
  }

  /** `cleanupLayers`, the loop over the queued pairs. */
  function Queued(es: seq<LayerEntry>): seq<Event>
  {
    if es == [] then []
    else if IsLayer(es[|es| - 1]) then Queued(es[..|es| - 1]) + [CleanupInstance(es[|es| - 1])]
    else Queued(es[..|es| - 1])
  }

  /** The instance call of a run (`init`: initialize, else cleanup) for pair `e`. */
  function InstanceCall(e: LayerEntry, init: bool): Event
  {
    if init then InitializeInstance(e) else CleanupInstance(e)
  }

  /** The schema's own registrations, in either run: the instance call for a layer pair not handled yet. */
  function InstanceStep(st: Run, e: LayerEntry, init: bool): Run
  {
    if e !in st.seen && IsLayer(e) then Run(st.trace + [InstanceCall(e, init)], st.seen + [e]) else st
  }

  function InstanceLevel(st: Run, es: seq<LayerEntry>, init: bool): Run
  {
    if es == [] then st else InstanceStep(InstanceLevel(st, es[..|es| - 1], init), es[|es| - 1], init)
  }

  /** The calls `initializeLayers` makes for fields `fs` and schema registry `ls`. */
  function InitializeTrace(fs: seq<Field>, ls: seq<LayerEntry>): seq<Event>
  {
    InstanceLevel(InitFields(Occurrences(fs)), ls, true).trace
  }

  /** The calls `cleanupLayers` makes for fields `fs` and schema registry `ls`. */
  function CleanupTrace(fs: seq<Field>, ls: seq<LayerEntry>): seq<Event>
  {
    InstanceLevel(CleanupQueue(Occurrences(fs)), ls, false).trace
  }

  /** `cleanupLayers` up to the schema's own registrations: the field loop, then the loop over the queue. */
  function CleanupQueue(os: seq<Occurrence>): Run
  {
    var st := CleanupFields(os);
    Run(st.trace + Queued(st.seen), st.seen)
  }

  // ---------------------------------------------------------------------
  // Projections of a trace

  /** The pair of an instance call of the run, if `ev` is one. */
  function InstOf(ev: Event, init: bool): seq<LayerEntry>
  {
    if ev == InstanceCall(ev.entry, init) then [ev.entry] else []
  }

  /** The registration of a field call of the run, if `ev` is one. */
  function CallOf(ev: Event, init: bool): seq<Occurrence>
  {
    if (init && ev.InitializeField?) || (!init && ev.CleanupField?) then [(ev.entry, ev.field)] else []
  }

  /** The pairs of the run's instance calls, in order. */
  function Instanced(tr: seq<Event>, init: bool): seq<LayerEntry>
  {
    if tr == [] then [] else Instanced(tr[..|tr| - 1], init) + InstOf(tr[|tr| - 1], init)
  }

  /** The registrations of the run's field calls, in order. */
  function FieldCalls(tr: seq<Event>, init: bool): seq<Occurrence>
  {
    if tr == [] then [] else FieldCalls(tr[..|tr| - 1], init) + CallOf(tr[|tr| - 1], init)
  }

  lemma Extend(tr: seq<Event>, ev: Event, init: bool)
    ensures Instanced(tr + [ev], init) == Instanced(tr, init) + InstOf(ev, init)
    ensures FieldCalls(tr + [ev], init) == FieldCalls(tr, init) + CallOf(ev, init)
  {
    assert (tr + [ev])[..|tr|] == tr;
  }

  lemma {:induction false} InstancedAppend(a: seq<Event>, b: seq<Event>, init: bool)
    ensures Instanced(a + b, init) == Instanced(a, init) + Instanced(b, init)
  {
    if b == [] {
      assert a + b == a;
    } else {
      assert (a + b)[..|a + b| - 1] == a + b[..|b| - 1];
      assert (a + b)[|a + b| - 1] == b[|b| - 1];
      InstancedAppend(a, b[..|b| - 1], init);
    }
  }

  lemma {:induction false} FieldCallsAppend(a: seq<Event>, b: seq<Event>, init: bool)
    ensures FieldCalls(a + b, init) == FieldCalls(a, init) + FieldCalls(b, init)
  {
    if b == [] {
      assert a + b == a;
    } else {
      assert (a + b)[..|a + b| - 1] == a + b[..|b| - 1];
      assert (a + b)[|a + b| - 1] == b[|b| - 1];
      FieldCallsAppend(a, b[..|b| - 1], init);
    }
  }

  lemma ProjectAppend(a: seq<Event>, b: seq<Event>, init: bool)
    ensures Instanced(a + b, init) == Instanced(a, init) + Instanced(b, init)
    ensures FieldCalls(a + b, init) == FieldCalls(a, init) + FieldCalls(b, init)
  {
    InstancedAppend(a, b, init);
    FieldCallsAppend(a, b, init);
  }

  /** Counting a run's instance calls for `e` in the trace is counting `e` among `Instanced`. */
  lemma {:induction false} InstancedCount(tr: seq<Event>, init: bool, e: LayerEntry)
    ensures multiset(tr)[InstanceCall(e, init)] == multiset(Instanced(tr, init))[e]
  {
    if tr != [] {
      var front, last := tr[..|tr| - 1], tr[|tr| - 1];
      assert tr == front + [last];
      InstancedCount(front, init, e);
    }
  }

  lemma InstancedMember(tr: seq<Event>, init: bool, e: LayerEntry)
    requires e in Instanced(tr, init)
    ensures InstanceCall(e, init) in tr
  {
    InstancedCount(tr, init, e);
  }

  /** Every event of `b` is an instance call of the run. */
  ghost predicate OnlyInstances(b: seq<Event>, init: bool)
  {
    forall k :: 0 <= k < |b| ==> b[k] == InstanceCall(b[k].entry, init)
  }

  // ---------------------------------------------------------------------
  // initializeLayers

  /** The pairs handled are listed once each, the run's instance calls are the layer pairs among them, and the other run's calls are absent. */
  ghost predicate Books(st: Run, init: bool)
  {
    && Distinct(st.seen)
    && Instanced(st.trace, init) == LayerPairs(st.seen)
    && Instanced(st.trace, !init) == []
    && FieldCalls(st.trace, !init) == []
  }

  /** Every field call of an initialize run comes after the instance call for its pair. */
  ghost predicate Announced(tr: seq<Event>)
  {
    forall k :: 0 <= k < |tr| && tr[k].InitializeField? ==> InitializeInstance(tr[k].entry) in tr[..k]
  }

  lemma AnnouncedSnoc(tr: seq<Event>, ev: Event)
    requires Announced(tr)
    requires ev.InitializeField? ==> InitializeInstance(ev.entry) in tr
    ensures Announced(tr + [ev])
  {
    var r := tr + [ev];
    forall k | 0 <= k < |r| && r[k].InitializeField? ensures InitializeInstance(r[k].entry) in r[..k] {
      if k < |tr| {
        assert r[k] == tr[k] && r[..k] == tr[..k];
      } else {
        assert r[..k] == tr;
      }
    }
  }

  lemma InitStepSpec(st: Run, o: Occurrence)
    requires Books(st, true)
    ensures Books(InitStep(st, o), true)
    ensures forall e :: e in InitStep(st, o).seen <==> e in st.seen || (IsLayer(o.0) && e == o.0)
    ensures FieldCalls(InitStep(st, o).trace, true) == FieldCalls(st.trace, true) + (if IsLayer(o.0) then [o] else [])
    ensures Announced(st.trace) ==> Announced(InitStep(st, o).trace)
  {
    if IsLayer(o.0) {
      if o.0 in st.seen {
        InitStepSeen(st, o);
      } else {
        InitStepNew(st, o);
      }
    }
  }

  /** A later registration of a pair already handled only adds the field call. */
  lemma InitStepSeen(st: Run, o: Occurrence)
    requires Books(st, true) && IsLayer(o.0) && o.0 in st.seen
    ensures Books(Run(st.trace + [InitializeField(o.0, o.1)], st.seen), true)
    ensures FieldCalls(st.trace + [InitializeField(o.0, o.1)], true) == FieldCalls(st.trace, true) + [o]
    ensures Announced(st.trace) ==> Announced(st.trace + [InitializeField(o.0, o.1)])
  {
    var fe := InitializeField(o.0, o.1);
    Extend(st.trace, fe, true);
    Extend(st.trace, fe, false);
    LayerPairsCount(st.seen, o.0);
    InstancedMember(st.trace, true, o.0);
    if Announced(st.trace) {
      AnnouncedSnoc(st.trace, fe);
    }
  }

  /** The first registration of a layer pair adds the instance call, then the field call. */
  lemma InitStepNew(st: Run, o: Occurrence)
    requires Books(st, true) && IsLayer(o.0) && o.0 !in st.seen
    ensures Books(Run(st.trace + [InitializeInstance(o.0)] + [InitializeField(o.0, o.1)], st.seen + [o.0]), true)
    ensures FieldCalls(st.trace + [InitializeInstance(o.0)] + [InitializeField(o.0, o.1)], true) == FieldCalls(st.trace, true) + [o]
    ensures Announced(st.trace) ==> Announced(st.trace + [InitializeInstance(o.0)] + [InitializeField(o.0, o.1)])
  {
    var ie, fe := InitializeInstance(o.0), InitializeField(o.0, o.1);
    var mid := st.trace + [ie];
    InitNewBooks(st, o);
    Extend(st.trace, ie, true);
    Extend(mid, fe, true);
    if Announced(st.trace) {
      AnnouncedSnoc(st.trace, ie);
      AnnouncedSnoc(mid, fe);
    }
  }

  lemma InitNewBooks(st: Run, o: Occurrence)
    requires Books(st, true) && IsLayer(o.0) && o.0 !in st.seen
    ensures Books(Run(st.trace + [InitializeInstance(o.0)] + [InitializeField(o.0, o.1)], st.seen + [o.0]), true)
  {
    var ie, fe := InitializeInstance(o.0), InitializeField(o.0, o.1);
    var mid := st.trace + [ie];
    Extend(st.trace, ie, true);
    Extend(st.trace, ie, false);
    Extend(mid, fe, true);
    Extend(mid, fe, false);
    LayerPairsSnoc(st.seen, o.0);
    DistinctSnoc(st.seen, o.0);
  }

  lemma {:induction false} InitFieldsSpec(os: seq<Occurrence>)
    ensures Books(InitFields(os), true)
    ensures forall e :: e in InitFields(os).seen <==> IsLayer(e) && e in Entries(os)
    ensures FieldCalls(InitFields(os).trace, true) == LayerOccurrences(os)
    ensures Announced(InitFields(os).trace)
  {
    if os != [] {
      var front, o := os[..|os| - 1], os[|os| - 1];
      InitFieldsSpec(front);
      InitStepSpec(InitFields(front), o);
      assert Entries(os) == Entries(front) + [o.0];
    }
  }

  lemma InstanceStepSpec(st: Run, e: LayerEntry, init: bool)
    requires Books(st, init)
    ensures Books(InstanceStep(st, e, init), init)
    ensures forall x :: x in InstanceStep(st, e, init).seen <==> x in st.seen || (IsLayer(e) && x == e)
    ensures FieldCalls(InstanceStep(st, e, init).trace, init) == FieldCalls(st.trace, init)
    ensures InstanceStep(st, e, init).trace == st.trace || InstanceStep(st, e, init).trace == st.trace + [InstanceCall(e, init)]
    ensures Announced(st.trace) ==> Announced(InstanceStep(st, e, init).trace)
  {
    if e !in st.seen && IsLayer(e) {
      var ev := InstanceCall(e, init);
      Extend(st.trace, ev, init);
      Extend(st.trace, ev, !init);
      LayerPairsSnoc(st.seen, e);
      DistinctSnoc(st.seen, e);
      if Announced(st.trace) {
        AnnouncedSnoc(st.trace, ev);
      }
    }
  }

  lemma {:induction false} InstanceLevelSpec(st: Run, es: seq<LayerEntry>, init: bool)
    requires Books(st, init)
    ensures Books(InstanceLevel(st, es, init), init)
    ensures forall x :: x in InstanceLevel(st, es, init).seen <==> x in st.seen || (IsLayer(x) && x in es)
    ensures FieldCalls(InstanceLevel(st, es, init).trace, init) == FieldCalls(st.trace, init)
    ensures Announced(st.trace) ==> Announced(InstanceLevel(st, es, init).trace)
  {
    if es != [] {
      var front, e := es[..|es| - 1], es[|es| - 1];
      assert es == front + [e];
      InstanceLevelSpec(st, front, init);
      InstanceStepSpec(InstanceLevel(st, front, init), e, init);
    }
  }

  /** The schema-level pass only appends instance calls. */
  lemma {:induction false} InstanceLevelAppends(st: Run, es: seq<LayerEntry>, init: bool)
    ensures st.trace <= InstanceLevel(st, es, init).trace
    ensures OnlyInstances(InstanceLevel(st, es, init).trace[|st.trace|..], init)
  {
    if es != [] {
      var front, e := es[..|es| - 1], es[|es| - 1];
      InstanceLevelAppends(st, front, init);
      var cur := InstanceLevel(st, front, init);
      var ev := InstanceCall(e, init);
      assert (cur.trace + [ev])[|st.trace|..] == cur.trace[|st.trace|..] + [ev];
    }
  }

  /** The number of times `e` is among the layer pairs of a duplicate-free list. */
  lemma CountLayers(seen: seq<LayerEntry>, e: LayerEntry)
    requires Distinct(seen)
    ensures multiset(LayerPairs(seen))[e] == if IsLayer(e) && e in seen then 1 else 0
  {
    LayerPairsCount(seen, e);
    DistinctCount(seen, e);
  }

  /**
   * `initializeLayers`: every layer pair registered on a field or on the
   * schema has its instance initialized exactly once, and no other pair
   * has; `initializeField` is called once for every registration of a
   * layer on a field, field by field; every `initializeField` comes after
   * the `initializeInstance` of its pair; no cleanup call is made.
   */
  lemma InitializeSpec(fs: seq<Field>, ls: seq<LayerEntry>)
    ensures forall e :: multiset(InitializeTrace(fs, ls))[InitializeInstance(e)] == (if IsLayer(e) && (e in Entries(Occurrences(fs)) || e in ls) then 1 else 0)
    ensures FieldCalls(InitializeTrace(fs, ls), true) == LayerOccurrences(Occurrences(fs))
    ensures Announced(InitializeTrace(fs, ls))
    ensures FieldCalls(InitializeTrace(fs, ls), false) == [] && Instanced(InitializeTrace(fs, ls), false) == []
  {
    var os := Occurrences(fs);
    InitFieldsSpec(os);
    var st := InitFields(os);
    InstanceLevelSpec(st, ls, true);
    var fin := InstanceLevel(st, ls, true);
    forall e ensures multiset(fin.trace)[InitializeInstance(e)] == (if IsLayer(e) && (e in Entries(os) || e in ls) then 1 else 0) {
      InstancedCount(fin.trace, true, e);
      CountLayers(fin.seen, e);
    }
  }

  // ---------------------------------------------------------------------
  // cleanupLayers

  /** The calls of the field loop of `cleanupLayers`: field cleanups only. */
  ghost predicate FieldCleanups(tr: seq<Event>)
  {
    && Instanced(tr, false) == [] && Instanced(tr, true) == []
    && FieldCalls(tr, true) == []
    && forall k :: 0 <= k < |tr| ==> tr[k].CleanupField?
  }

  /** The field loop of `cleanupLayers` so far: pairs queued once each, only field cleanups made. */
  ghost predicate Queueing(st: Run)
  {
    Distinct(st.seen) && FieldCleanups(st.trace)
  }

  /** Cleaning one more field up records its call and keeps the calls field cleanups only. */
  lemma CleanupFieldSnoc(tr: seq<Event>, o: Occurrence)
    requires FieldCleanups(tr)
    ensures FieldCleanups(tr + [CleanupField(o.0, o.1)])
    ensures FieldCalls(tr + [CleanupField(o.0, o.1)], false) == FieldCalls(tr, false) + [o]
  {
    var ev := CleanupField(o.0, o.1);
    Extend(tr, ev, true);
    Extend(tr, ev, false);
  }

  lemma CleanupFieldsSpec(os: seq<Occurrence>)
    ensures Queueing(CleanupFields(os))
    ensures forall e :: e in CleanupFields(os).seen <==> e in Entries(os)
    ensures FieldCalls(CleanupFields(os).trace, false) == LayerOccurrences(os)
  {
    CleanupFieldsSeen(os);
    CleanupFieldsTrace(os);
  }

  /** The field loop of `cleanupLayers` queues every pair registered, once. */
  lemma {:induction false} CleanupFieldsSeen(os: seq<Occurrence>)
    ensures Distinct(CleanupFields(os).seen)
    ensures forall e :: e in CleanupFields(os).seen <==> e in Entries(os)
  {
    if os != [] {
      var front, o := os[..|os| - 1], os[|os| - 1];
      CleanupFieldsSeen(front);
      assert Entries(os) == Entries(front) + [o.0];
      if o.0 !in CleanupFields(front).seen {
        DistinctSnoc(CleanupFields(front).seen, o.0);
      }
    }
  }

  /** The field loop of `cleanupLayers` cleans up exactly the layer registrations, in order. */
  lemma {:induction false} CleanupFieldsTrace(os: seq<Occurrence>)
    ensures FieldCleanups(CleanupFields(os).trace)
    ensures FieldCalls(CleanupFields(os).trace, false) == LayerOccurrences(os)
  {
    if os != [] {
      var front, o := os[..|os| - 1], os[|os| - 1];
      CleanupFieldsTrace(front);
      if IsLayer(o.0) {
        CleanupFieldSnoc(CleanupFields(front).trace, o);
      }
    }
  }

  lemma QueuedSpec(es: seq<LayerEntry>)
    ensures Instanced(Queued(es), false) == LayerPairs(es)
    ensures Instanced(Queued(es), true) == [] && FieldCalls(Queued(es), true) == [] && FieldCalls(Queued(es), false) == []
    ensures OnlyInstances(Queued(es), false)
  {
    QueuedCalls(es);
    QueuedOnly(es);
  }

  lemma {:induction false} QueuedCalls(es: seq<LayerEntry>)
    ensures Instanced(Queued(es), false) == LayerPairs(es)
    ensures Instanced(Queued(es), true) == [] && FieldCalls(Queued(es), true) == [] && FieldCalls(Queued(es), false) == []
  {
    if es != [] {
      var front, e := es[..|es| - 1], es[|es| - 1];
      QueuedCalls(front);
      if IsLayer(e) {
        var ev := CleanupInstance(e);
        Extend(Queued(front), ev, true);
        Extend(Queued(front), ev, false);
      }
    }
  }

  lemma {:induction false} QueuedOnly(es: seq<LayerEntry>)
    ensures OnlyInstances(Queued(es), false)
  {
    if es != [] {
      var front, e := es[..|es| - 1], es[|es| - 1];
      QueuedOnly(front);
      if IsLayer(e) {
        var q, ev := Queued(front), CleanupInstance(e);
        forall k | 0 <= k < |q + [ev]| ensures (q + [ev])[k] == InstanceCall((q + [ev])[k].entry, false) {
          if k < |q| {
            assert (q + [ev])[k] == q[k];
          }
        }
      }
    }
  }

  /** After the queue loop: the bookkeeping holds, field cleanups come first, then instance cleanups only. */
  lemma CleanupQueueSpec(os: seq<Occurrence>)
    ensures Books(CleanupQueue(os), false)
    ensures forall e :: e in CleanupQueue(os).seen <==> e in Entries(os)
    ensures FieldCalls(CleanupQueue(os).trace, false) == LayerOccurrences(os)
    ensures var n := |CleanupFields(os).trace|;
      n <= |CleanupQueue(os).trace| &&
      (forall k :: 0 <= k < n ==> CleanupQueue(os).trace[k].CleanupField?) &&
      OnlyInstances(CleanupQueue(os).trace[n..], false)
  {
    CleanupFieldsSpec(os);
    var st := CleanupFields(os);
    var q := Queued(st.seen);
    QueuedSpec(st.seen);
    ProjectAppend(st.trace, q, false);
    ProjectAppend(st.trace, q, true);
    assert (st.trace + q)[|st.trace|..] == q;
  }

  /**
   * `cleanupLayers`: every layer pair registered on a field or on the
   * schema has its instance cleaned up exactly once, and no other pair
   * has; `cleanupField` is called once for every registration of a layer
   * on a field, field by field; every `cleanupField` comes before every
   * `cleanupInstance`; no initialize call is made.
   */
  lemma CleanupSpec(fs: seq<Field>, ls: seq<LayerEntry>)
    ensures forall e :: multiset(CleanupTrace(fs, ls))[CleanupInstance(e)] == (if IsLayer(e) && (e in Entries(Occurrences(fs)) || e in ls) then 1 else 0)
    ensures FieldCalls(CleanupTrace(fs, ls), false) == LayerOccurrences(Occurrences(fs))
    ensures forall i, j :: 0 <= i < j < |CleanupTrace(fs, ls)| && CleanupTrace(fs, ls)[i].CleanupInstance? ==> !CleanupTrace(fs, ls)[j].CleanupField?
    ensures FieldCalls(CleanupTrace(fs, ls), true) == [] && Instanced(CleanupTrace(fs, ls), true) == []
  {
    var os := Occurrences(fs);
    CleanupQueueSpec(os);
    var mid := CleanupQueue(os);
    InstanceLevelSpec(mid, ls, false);
    CleanupCount(mid, ls, os);
    CleanupOrder(mid, ls, |CleanupFields(os).trace|);
  }

  lemma CleanupCount(mid: Run, ls: seq<LayerEntry>, os: seq<Occurrence>)
    requires Books(mid, false)
    requires forall e :: e in mid.seen <==> e in Entries(os)
    ensures forall e :: multiset(InstanceLevel(mid, ls, false).trace)[CleanupInstance(e)] == (if IsLayer(e) && (e in Entries(os) || e in ls) then 1 else 0)
  {
    InstanceLevelSpec(mid, ls, false);
    var fin := InstanceLevel(mid, ls, false);
    forall e ensures multiset(fin.trace)[CleanupInstance(e)] == (if IsLayer(e) && (e in Entries(os) || e in ls) then 1 else 0) {
      InstancedCount(fin.trace, false, e);
      CountLayers(fin.seen, e);
    }
  }

  lemma CleanupOrder(mid: Run, ls: seq<LayerEntry>, n: nat)
    requires n <= |mid.trace|
    requires forall k :: 0 <= k < n ==> mid.trace[k].CleanupField?
    requires OnlyInstances(mid.trace[n..], false)
    ensures var tr := InstanceLevel(mid, ls, false).trace;
      forall i, j :: 0 <= i < j < |tr| && tr[i].CleanupInstance? ==> !tr[j].CleanupField?
  {
    InstanceLevelAppends(mid, ls, false);
    var tr := InstanceLevel(mid, ls, false).trace;
    forall k | 0 <= k < n ensures tr[k].CleanupField? {
      assert tr[k] == mid.trace[k];
    }
    forall k | n <= k < |tr| ensures tr[k].CleanupInstance? {
      if k < |mid.trace| {
        assert tr[k] == mid.trace[k] == mid.trace[n..][k - n];
      } else {
        assert tr[k] == tr[|mid.trace|..][k - |mid.trace|];
      }
    }
  }
}
