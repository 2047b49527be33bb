# Archetypes schemas and reference catalog UIDs, modelled in Dafny

Archetypes is the content-type framework of Zope/Plone. A content type
declares its fields in a **schema**: an ordered container of field
objects keyed by field name, where each field belongs to a *schemata*
(a tab of the edit form). This project models the schema container
classes of `Products/Archetypes/Schema/__init__.py` and the UID helpers
of the reference catalog in `Products/Archetypes/ReferenceEngine.py`.
It then proves properties of that model.

The schema classes:

- `Schemata` keeps a name list `_names` and a dictionary `_fields`, and
  updates both in place.
- `BasicSchema` adds properties, validation and schemata queries.
- `Schema` adds a layer registry and the layer run-time (the
  `initializeLayers` and `cleanupLayers` calls on registered layer
  objects).
- `ManagedSchema` can delete, add and reorder schematas and fields.
- `MetadataSchema` marks every field it adds as metadata.

The project has these modules (one file each):

- `py.dfy` (`Py`): Python values, their truth value and `==`,
  `Option`, `Result`, and the exceptions raised.
- `seqs.dfy` (`Seqs`): generic sequence facts, such as `Filter`,
  `Find`, `Delete` and `Distinct`.
- `fields.dfy` (`Fields`): the `Field` value and the container as a
  value. It holds a sequence of fields with unique names. Storing,
  removing, replacing and `addField` with its `_validateOnAdd` checks
  are functions on it.
- `arrange.dfy` (`Arrange`): schemata groups and the reorderings of
  `moveSchemata` and `moveField`.
- `queries.dfy` (`Queries`): `filterFields`, `editableFields`,
  `searchable`, `updateAll` and `validate`, as functions.
- `layers.dfy` (`Layers`): the layer registry and the calls made by
  `initializeLayers` and `cleanupLayers`, recorded as an event trace.
- `schema.dfy` (`Schemas`): the schema object. It is one class,
  `Schema`, whose `kind` says which Python class it stands for. Its
  fields `names`, `fields`, `props` and `layers` are updated in place by
  its methods. Each method is proved against the value-level functions,
  through `Fields()`.
- `references.dfy` (`ReferenceEngine`): content objects and their UID
  attribute, the UID catalog as a sequence of brains, and the
  `Reference` constructor. The `ReferenceCatalog` methods `_uidFor`,
  `_getUUIDFor`, `registerObject`, `_objectByUUID`, `_getObject`,
  `_queryFor`, `_resolveBrains` and `_deleteReference` are modelled.

Calls into code outside these two files become parameters of the
operations. These include a field's `writeable` and `validate`, a
widget's `process_form`, accessors, `make_uuid`, the UID query utility
and a reference's delete hook. The `MetadataStorage` objects that
`MetadataSchema.addField` creates are parameters too.

## Model

| member | source | states |
|---|---|---|
| Schemas.Schema.Fields | Products/Archetypes/Schema/__init__.py:97-100 | `fields()` lists the stored fields in `_names` order; their names are `_names` and unique |
| Schemas.FieldsOf | Products/Archetypes/Schema/__init__.py:97-100 | the fields of a name list and a dictionary kept in step have exactly those names, each once |
| Schemas.Schema.Schemata | Products/Archetypes/Schema/__init__.py:52-57 | a new `Schemata` has the given name, no fields, no properties and no layers |
| Schemas.Schema.NewSchemata | Products/Archetypes/Schema/__init__.py:52-65 | `Schemata(name, fields)` fails exactly when adding the fields in turn raises, with that exception; otherwise it holds what the adds produce; a list with unique names that keeps the structural rules is held exactly |
| Schemas.Schema.Basic | Products/Archetypes/Schema/__init__.py:388-400 | a schema built from keyword arguments has them as properties, no fields and name `default`; for a `Schema`, a true `marshall` property is registered as a layer (lines 286-291) |
| Schemas.Schema.Build | Products/Archetypes/Schema/__init__.py:388-417 | the constructor adds its positional fields in turn as the loop is written: a list is added as given, and fields passed one by one are each replaced by the first of them. It fails exactly when an add raises, with that exception. Otherwise it holds the added fields, the keyword properties and the initial layers |
| Schemas.Schema.HasPrimary | Products/Archetypes/Schema/__init__.py:255-262 | returns a primary field of the container, the first one; returns none exactly when no field is primary |
| Fields.PrimaryAt | Products/Archetypes/Schema/__init__.py:255-262 | the position found is that of a primary field, and no earlier field is primary |
| Fields.PrimaryIsFirst | Products/Archetypes/Schema/__init__.py:255-262 | in a container that keeps the rules, any primary field is the one `hasPrimary` finds |
| Schemas.Schema.AddField | Products/Archetypes/Schema/__init__.py:185-218 | `addField` raises SchemaException for a second primary field under another name, and ReferenceException for a reference field whose relationship is not a non-empty `str` (a `unicode` one included), leaving the container unchanged; otherwise the field is stored under its name, in place or appended; a `MetadataSchema` first marks the field (lines 813-826) |
| Fields.UnicodeRelationshipRefused | Products/Archetypes/Schema/__init__.py:209-212 | a reference field whose relationship is a `unicode` string fails the add check, since only `str` qualifies |
| Schemas.Schema.Store | Products/Archetypes/Schema/__init__.py:189-192 | storing appends the name only when it is new and keeps names and dictionary in step |
| Schemas.StoreSpec | Products/Archetypes/Schema/__init__.py:189-192 | after the store, the name list and the dictionary still agree, and the ordered fields are the stored field put in place or appended |
| Fields.PutSpec | Products/Archetypes/Schema/__init__.py:185-192 | storing keeps names unique, appends the name only if new, makes the name look up the new field and changes no other lookup |
| Fields.AddKeepsWellFormed | Products/Archetypes/Schema/__init__.py:194-218 | a field that passes `_validateOnAdd` keeps the container at most one primary field and all reference fields qualified |
| Fields.CheckAddPass | Products/Archetypes/Schema/__init__.py:194-218 | every field of a container that keeps the rules passes the check against the fields before it |
| Schemas.Schema.DelField | Products/Archetypes/Schema/__init__.py:220-224 | deleting a missing name raises KeyError and changes nothing; otherwise exactly that field is removed and the others keep their order |
| Schemas.DropSpec | Products/Archetypes/Schema/__init__.py:220-224 | removing the name from `_names` and `_fields` keeps them in step and removes exactly that field from the ordered fields |
| Fields.RemoveSpec | Products/Archetypes/Schema/__init__.py:220-224 | after removal the name looks up nothing, all other lookups are unchanged, and names stay unique |
| Schemas.Schema.ReplaceField | Products/Archetypes/Schema/__init__.py:614-625 | a `BasicSchema` method: replacing a missing name raises ValueError and changes nothing; otherwise the new field takes the old one's position |
| Schemas.SwapSpec | Products/Archetypes/Schema/__init__.py:614-622 | overwriting the name's slot and re-keying the dictionary keeps them in step and replaces exactly that field |
| Fields.ReplaceSpec | Products/Archetypes/Schema/__init__.py:614-622 | after the replacement the new name looks up the new field, the old name looks up nothing if it changed, and other lookups are unchanged |
| Schemas.Schema.ChangeSchemataForField | Products/Archetypes/Schema/__init__.py:589-595 | a `BasicSchema` method: a missing name raises KeyError and changes nothing; otherwise the field is deleted and added back with the new schemata, the add's outcome is returned, and on failure the field stays deleted |
| Schemas.ChangeSchemataSpec | Products/Archetypes/Schema/__init__.py:589-595 | in a container that keeps the rules, re-adding the moved field always passes, and it goes to the end of the order |
| Schemas.Schema.FilterFields | Products/Archetypes/Schema/__init__.py:142-177 | returns the container's fields that satisfy every predicate and have every given attribute equal to its value |
| Schemas.Passes | Products/Archetypes/Schema/__init__.py:154-175 | the per-field test is the conjunction of the predicates, presence of the attributes and equality of their values |
| Queries.FilterFieldsSpec | Products/Archetypes/Schema/__init__.py:142-177 | every result field is in the container and matches; every matching field is in the result; every result field has each asked attribute; container order is kept |
| Schemas.Schema.EditableFields | Products/Archetypes/Schema/__init__.py:106-122 | returns, in order, the writeable fields, leaving out those hidden on edit when only visible ones are asked for |
| Schemas.Editable | Products/Archetypes/Schema/__init__.py:109-121 | the per-field test: writeable, and not hidden on edit if only visible fields are wanted |
| Queries.SearchableNames | Products/Archetypes/Schema/__init__.py:250-253 | `searchable()` raises AttributeError exactly when some field has no `searchable` attribute; otherwise it is the names of the fields whose `searchable` is true, one per field, in container order |
| Schemas.Schema.GetSchemataNames | Products/Archetypes/Schema/__init__.py:597-604 | returns the schemata names in order of first appearance |
| Arrange.NamesOfFields | Products/Archetypes/Schema/__init__.py:597-604 | the schemata names are distinct, include every field's schemata, and each has at least one field |
| Schemas.GroupSpec | Products/Archetypes/Schema/__init__.py:606-612 | `getSchemataFields(s)` holds exactly the fields of schemata `s`, in container order |
| Arrange.GroupIsRun | Products/Archetypes/Schema/__init__.py:606-612 | every field returned for schemata `s` belongs to `s` |
| Schemas.Schema.UpdateAll | Products/Archetypes/Schema/__init__.py:475-499 | the mutator calls made are those of the writeable fields named in the keyword arguments, in field order, each with its argument |
| Queries.UpdateAllSpec | Products/Archetypes/Schema/__init__.py:475-499 | every call goes to a writeable field of the container with its own keyword value; every such field is called exactly once; calls follow container order |
| Schemas.Schema.ValidationFields | Products/Archetypes/Schema/__init__.py:516-532 | with a form naming a fieldset, the fields of that schemata of the instance, and KeyError if it has none; otherwise the non-metadata fields if `data`, then the metadata fields if `metadata` |
| Queries.Selected | Products/Archetypes/Schema/__init__.py:516-532 | field selection fails only with KeyError |
| Queries.SelectedWithoutFieldset | Products/Archetypes/Schema/__init__.py:526-532 | without a fieldset, selection succeeds and holds exactly the container's fields wanted by the `data` and `metadata` flags |
| Schemas.Schema.FlagFields | Products/Archetypes/Schema/__init__.py:527-532 | the `data` fields are those with `isMetadata == 0`, the `metadata` fields those with `isMetadata == 1`, in that order |
| Schemas.Schema.Validate | Products/Archetypes/Schema/__init__.py:505-564 | a bad fieldset raises KeyError; otherwise the errors map is updated with the truthy verdict of every selected field that has a value |
| Schemas.CollectErrors | Products/Archetypes/Schema/__init__.py:539-563 | the loop over the selected fields computes the errors map `Validated` describes |
| Queries.ValidatedSpec | Products/Archetypes/Schema/__init__.py:539-563 | a name has an error afterwards exactly if it had one or a visited field of that name has a truthy verdict; untouched names keep their error; the last such field's verdict is recorded |
| Schemas.Schema.InitializeLayers | Products/Archetypes/Schema/__init__.py:296-322 | returns the layer calls `initializeLayers` makes, as given by `InitializeTrace` |
| Schemas.InitializeFieldLayers | Products/Archetypes/Schema/__init__.py:303-314 | the loop over the fields' layer registrations produces the run `InitFields` describes |
| Schemas.InstanceLayers | Products/Archetypes/Schema/__init__.py:317-322 | the loop over the schema's own registrations produces the run `InstanceLevel` describes |
| Layers.InitFieldsSpec | Products/Archetypes/Schema/__init__.py:303-314 | after the field loop, exactly the layer pairs registered on fields are initialized, each once; every layer registration gets its `initializeField` call in order; every field call comes after its pair's `initializeInstance` |
| Layers.InstanceLevelSpec | Products/Archetypes/Schema/__init__.py:317-322 | the schema-level loop initializes exactly the layer pairs not yet initialized, once each, and makes no field calls |
| Layers.InitializeSpec | Products/Archetypes/Schema/__init__.py:296-322 | every layer pair registered on a field or on the schema gets exactly one `initializeInstance`, and no other pair gets one; field calls are the fields' layer registrations in order, each after its instance call; no cleanup calls |
| Schemas.Schema.CleanupLayers | Products/Archetypes/Schema/__init__.py:327-354 | returns the layer calls `cleanupLayers` makes, as given by `CleanupTrace` |
| Schemas.CleanupFieldLayers | Products/Archetypes/Schema/__init__.py:334-341 | the field loop of `cleanupLayers` produces the run `CleanupFields` describes |
| Schemas.CleanupQueued | Products/Archetypes/Schema/__init__.py:343-345 | the loop over the queue produces the calls `Queued` describes |
| Layers.CleanupFieldsSpec | Products/Archetypes/Schema/__init__.py:334-341 | the field loop queues every registered pair once, layer or not, and makes one `cleanupField` per layer registration, in order |
| Layers.QueuedSpec | Products/Archetypes/Schema/__init__.py:343-345 | the queue loop calls `cleanupInstance` for exactly the layer pairs in the queue, in queue order, and nothing else |
| Layers.CleanupQueueSpec | Products/Archetypes/Schema/__init__.py:334-345 | all `cleanupField` calls come first, then only `cleanupInstance` calls |
| Layers.CleanupCount | Products/Archetypes/Schema/__init__.py:349-354 | after the schema-level loop, each layer pair registered on a field or on the schema has exactly one `cleanupInstance` |
| Layers.CleanupOrder | Products/Archetypes/Schema/__init__.py:343-354 | no `cleanupField` call follows a `cleanupInstance` call |
| Layers.CleanupSpec | Products/Archetypes/Schema/__init__.py:327-354 | one `cleanupInstance` per layer pair registered on a field or the schema and none for others; field calls are the fields' layer registrations in order; no instance call precedes a field call; no initialize calls |
| Layers.RegisterSpec | Products/Archetypes/Schema/__init__.py:363-364 | `registerLayer` makes the name look up the new object, leaves the other names, keeps one entry per name and appends only a new name |
| Layers.RegisterAllSpec | Products/Archetypes/Schema/__init__.py:371-372 | registering a series of entries keeps one entry per name; a name looks up its last registered object, or the old one if it was not registered |
| Schemas.Collect | Products/Archetypes/Schema/__init__.py:358-362 | collecting the pairs into a dictionary yields the registry `RegisterAll` describes |
| Layers.MergeLayersSpec | Products/Archetypes/Schema/__init__.py:356-365 | the registry of a sum holds the names of both, once each; the other's object wins on a shared name |
| Layers.CopyLayersSpec | Products/Archetypes/Schema/__init__.py:368-373 | registering a registry again gives the same registry |
| Layers.RegisterFresh | Products/Archetypes/Schema/__init__.py:363-364 | registering names not yet present appends them in order |
| Schemas.Schema.Concat | Products/Archetypes/Schema/__init__.py:641-659 | `self + other` adds this container's fields, then the other's, in turn to a new schema named `default`, and raises the first exception. The new schema is a `Schemata` for a `Schemata` (lines 72-83), a `BasicSchema` for a `BasicSchema` (lines 419-429), else a `Schema`. The latter two get this schema's properties. A `Schema` merges both registries, the other's winning on a name, and raises AttributeError if the other is a `Schemata` or a `BasicSchema`, which have no layer registry (a `Schema` with an empty registry does not raise). Disjoint containers that keep the rules are concatenated exactly |
| Fields.AddAllAppend | Products/Archetypes/Schema/__init__.py:72-83 | adding this container's fields and then the other's is adding the first series, then the second from where it left off |
| Fields.AddAllIsPutAll | Products/Archetypes/Schema/__init__.py:72-83 | when no add raises, the result is the fields stored in turn, later fields overwriting same-named earlier ones in place |
| Fields.PutAllSpec | Products/Archetypes/Schema/__init__.py:72-83 | the merged container keeps names unique and the first container's order as a prefix, followed by the other's names that the first lacks, in the other's order; a name looks up the other's field if it has one, else the first's |
| Fields.ConcatDisjoint | Products/Archetypes/Schema/__init__.py:72-83 | two containers with disjoint names that together keep the rules sum to their concatenation |
| Fields.ConcatTwoPrimaries | Products/Archetypes/Schema/__init__.py:72-83 | two containers, each with its own differently named primary field, cannot be added: the sum raises |
| Fields.SecondPrimaryFails | Products/Archetypes/Schema/__init__.py:200-207 | adding a container's fields to one that already has a different primary field raises |
| Fields.PrimaryOfPut | Products/Archetypes/Schema/__init__.py:255-262 | after storing fields without a primary, the container's only primary field is still the one `hasPrimary` finds |
| Fields.KeptByPutAll | Products/Archetypes/Schema/__init__.py:72-83 | a field whose name the other container does not use survives the merge |
| Fields.ReachedSuccess | Products/Archetypes/Schema/__init__.py:72-83 | when no add raises, the container reached is the result |
| Fields.ReachedStop | Products/Archetypes/Schema/__init__.py:72-83 | when an add raises, the container keeps what was added before it, and the exception is that add's |
| Schemas.Schema.Copy | Products/Archetypes/Schema/__init__.py:661-676 | `copy()` builds a new schema of the same class named `default` (for a `Schemata`, lines 87-93; for a `BasicSchema`, lines 432-441). It adds the fields in turn and fails exactly when an add raises. It copies the properties and registers the registry again. A container that keeps the rules, other than a `MetadataSchema`, is copied exactly |
| Fields.AddAllCopy | Products/Archetypes/Schema/__init__.py:87-93 | re-adding the fields of a container that keeps the rules, in order, rebuilds it exactly |
| Schemas.Schema.AddEach | Products/Archetypes/Schema/__init__.py:90-91 | the loop adding fields in turn returns the first exception and leaves the container that was reached |
| Schemas.AsMetadata | Products/Archetypes/Schema/__init__.py:813-826 | a metadata field keeps its name and type, has schemata `metadata`, `isMetadata` 1, the given storage, `generateMode` `mVc`, the storage registered as layer `storage`, and every other attribute unchanged |
| Schemas.MetadataKeepsChecks | Products/Archetypes/Schema/__init__.py:813-826 | marking a field as metadata changes neither its primary flag nor its relationship, so the add check's outcome is unchanged |
| Schemas.AddedAsWritten | Products/Archetypes/Schema/__init__.py:416-417 | as written, fields passed one by one are all replaced by the first of them |
| Schemas.PositionalFieldsLost | Products/Archetypes/Schema/__init__.py:416-417 | two distinct plain fields passed one by one: as written the schema holds only the first; as meant it holds both |
| Schemas.ReplaceCollision | Products/Archetypes/Schema/__init__.py:614-625 | as written, replacing `a` in `[a, b]` by a field named like `b` leaves `_names` listing `b`'s name twice and `_fields` holding only the new field, so the two no longer agree |
| Schemas.AddedSpec | Products/Archetypes/Schema/__init__.py:402-417 | as meant, the positional fields are added in order, and a set that keeps the rules is held exactly |
| Schemas.Schema.Reinit | Products/Archetypes/Schema/__init__.py:637-639 | `self.__init__()` on a `ManagedSchema` leaves no fields, name `default`, no properties and an empty registry |
| Schemas.Schema.DelSchemata | Products/Archetypes/Schema/__init__.py:708-713 | every field of schemata `s` is deleted; the others keep their order |
| Schemas.DelSchemataSpec | Products/Archetypes/Schema/__init__.py:708-713 | afterwards the container holds exactly the fields of other schematas, and `s` is no longer a schemata name |
| Schemas.Schema.AddSchemata | Products/Archetypes/Schema/__init__.py:716-723 | an existing schemata name raises ValueError and changes nothing; otherwise `addField` of the string field `<s>_default` of schemata `s`: it passes unless that field is primary, and once stored `s` is a schemata name |
| Schemas.AddSchemataSpec | Products/Archetypes/Schema/__init__.py:716-723 | adding the default string field can raise only SchemaException for a second primary field, passes when it is not primary or there is no primary field, and makes `s` a schemata name |
| Schemas.Schema.MoveSchemata | Products/Archetypes/Schema/__init__.py:726-757 | a bad direction or unknown schemata raises ValueError and changes nothing; otherwise the schema is re-initialized and the fields are re-added schemata by schemata in the new order; a container that keeps the rules ends up exactly reordered |
| Schemas.Schema.AddGroups | Products/Archetypes/Schema/__init__.py:754-757 | the re-add loop adds the groups in the given order, stopping at the first exception |
| Arrange.MoveIn | Products/Archetypes/Schema/__init__.py:741-749 | moving an entry one step left or right permutes the list |
| Arrange.MoveInSwap | Products/Archetypes/Schema/__init__.py:741-749 | the move swaps the entry with its neighbour in the direction, and leaves the list unchanged at either end |
| Arrange.MoveLeft | Products/Archetypes/Schema/__init__.py:742-745 | moving left exchanges the entry with the one before it |
| Arrange.MoveRight | Products/Archetypes/Schema/__init__.py:746-749 | moving right exchanges the entry with the one after it |
| Arrange.LayoutGroups | Products/Archetypes/Schema/__init__.py:754-757 | in the re-added order, each schemata's fields are its own group, in group order |
| Arrange.LayoutNames | Products/Archetypes/Schema/__init__.py:754-757 | the re-added order has exactly the new schemata order as its schemata names |
| Arrange.LayoutGrouped | Products/Archetypes/Schema/__init__.py:754-757 | in the re-added order, each schemata's fields are contiguous, in schemata order |
| Arrange.LayoutPermutation | Products/Archetypes/Schema/__init__.py:754-757 | the re-added order is a permutation of the old fields |
| Arrange.PermutationFields | Products/Archetypes/Schema/__init__.py:752-757 | a permutation of a container that keeps the rules keeps unique names and the rules, so re-adding it passes |
| Arrange.MoveSchemataPermutes | Products/Archetypes/Schema/__init__.py:726-757 | `moveSchemata` permutes the fields, and its schemata names are the old ones with `s` moved one step |
| Arrange.MoveSchemataGroups | Products/Archetypes/Schema/__init__.py:726-757 | every schemata keeps its fields in the same order |
| Arrange.MoveSchemataSpec | Products/Archetypes/Schema/__init__.py:726-757 | the result is a permutation, grouped by schemata, in the moved schemata order, every group unchanged, and re-adding it from a container that keeps the rules succeeds |
| Schemas.Schema.MoveField | Products/Archetypes/Schema/__init__.py:761-797 | a bad direction raises ValueError, then an unknown field KeyError, changing nothing; otherwise the field moves one step inside its schemata group and the fields are re-added schemata by schemata |
| Schemas.Schema.AddParts | Products/Archetypes/Schema/__init__.py:795-797 | the re-add loop adds the prepared lists in schemata order, stopping at the first exception |
| Arrange.MoveFieldPermutes | Products/Archetypes/Schema/__init__.py:761-797 | `moveField` permutes the fields and keeps the schemata names and their order |
| Arrange.MoveFieldGroups | Products/Archetypes/Schema/__init__.py:779-797 | the field's own schemata group is the moved group; every other group is unchanged |
| Arrange.MoveFieldSpec | Products/Archetypes/Schema/__init__.py:761-797 | the result is a permutation grouped schemata by schemata in `getSchemataNames` order, with the same schemata names, only the field's group changed, and re-adding it from a container that keeps the rules succeeds |
| ReferenceEngine.Reference.constructor | Products/Archetypes/ReferenceEngine.py:90-100 | a reference records its id, also as its UID, the source and target UIDs and the relationship, then the keyword arguments, which win on a shared name, and the keyword names as its metadata |
| ReferenceEngine.GetObject | Products/Archetypes/ReferenceEngine.py:480-485 | a UID string is resolved through the UID query; an object is returned as it is |
| ReferenceEngine.GetObjectByUid | Products/Archetypes/ReferenceEngine.py:480-485 | when the UID query returns only objects carrying the asked UID, the object `_getObject` finds for a UID carries that UID, and `_uidFor` on it gives a non-empty UID back |
| ReferenceEngine.ReferenceCatalog.RegisterObject | Products/Archetypes/ReferenceEngine.py:503-505 | registering a non-referenceable object raises ReferenceException and leaves its UID; otherwise the object keeps a true UID or gets the minted one |
| ReferenceEngine.ReferenceCatalog.ObjectByUUID | Products/Archetypes/ReferenceEngine.py:515-523 | returns the object of the first brain with that UID that resolves to one, `None` if none does |
| ReferenceEngine.FirstObject | Products/Archetypes/ReferenceEngine.py:515-523 | the result is `None` exactly when no brain resolves, else the object of a brain with only unresolved brains before it |
| ReferenceEngine.QueryFor | Products/Archetypes/ReferenceEngine.py:525-541 | the query has a key for each true argument, holding that argument, and no other key |
| ReferenceEngine.ReferenceCatalog.UidFor | Products/Archetypes/ReferenceEngine.py:543-566 | for a UID string, the string and the object of the last brain with that UID that resolves; for a non-referenceable object, ReferenceException; otherwise the object's true UID, or a freshly minted one now stored on it, and the object |
| ReferenceEngine.ReferenceCatalog.LastByUUID | Products/Archetypes/ReferenceEngine.py:560-565 | the lookup loop keeps the object of the last matching brain that resolves, `None` if none does |
| ReferenceEngine.LastObject | Products/Archetypes/ReferenceEngine.py:560-565 | the result is `None` exactly when no brain resolves, else the object of a brain with only unresolved brains after it |
| ReferenceEngine.FirstIsLast | Products/Archetypes/ReferenceEngine.py:515-523 | when all resolving brains of a UID give the same object, `_objectByUUID` and `_uidFor` find the same object |
| ReferenceEngine.AssignedIdempotent | Products/Archetypes/ReferenceEngine.py:551-555 | after `_uidFor` an object holds a true UID, a second call keeps it, and an object that had one keeps its own |
| ReferenceEngine.ReferenceCatalog.GetUUIDFor | Products/Archetypes/ReferenceEngine.py:568-573 | the minted UID is stored on the object and returned |
| ReferenceEngine.ReferenceCatalog.DeleteReference | Products/Archetypes/ReferenceEngine.py:575-587 | a vetoed delete changes nothing; otherwise the reference's UID is removed from the source's annotations, which is no error if it is absent; a missing source raises AttributeError |
| ReferenceEngine.Kept | Products/Archetypes/ReferenceEngine.py:589-594 | the positions kept are increasing, all of live brains, and include every live brain |
| ReferenceEngine.ResolvedKept | Products/Archetypes/ReferenceEngine.py:589-594 | the resolved objects are the objects of the live brains, in brain order |
| ReferenceEngine.ResolveBrains | Products/Archetypes/ReferenceEngine.py:589-594 | no brains give no objects; otherwise one object per brain whose object is true, in brain order |

## Left out

- Zope and CMF machinery is not modelled: security declarations, `InitializeClass`, acquisition wrappers (`aq_base`, `WrappedSchemata`, `WrappedSchema`, `wrapped`) and the deprecation `warn` call. The same goes for the accessors outside the modelled core: `getName`, `__getitem__`, `get`, `has_key`, `keys`, `viewableFields`, `widgets`, `edit`, `setDefaults`, `allow`, `toString` and `signature`.
- `Layer.py` is not part of this model. `DefaultLayerContainer` is modelled as a registry with one entry per name, in registration order, in which `registerLayer` replaces an entry in place or appends one. `Schemas.Schema.Reinit` assumes that `DefaultLayerContainer.__init__` empties the registry.
- The `dict` iteration order in `__add__` (`layers.items()`) is taken to be insertion order. Python 2 does not promise this.
- The object check (`IField.isImplementedBy`) and its ValueError in `_validateOnAdd` and `replaceField` are not modelled: every value of the model's `Field` type is a field. Likewise every field is taken to be a layer container (`ILayerContainer.isImplementedBy(field)`).
- Schemas.Schema.ReplaceField: requires the new field's name to be the old name or an unused one. If the new name is used by another field, the source leaves `_names` listing that name twice, which the model's container cannot represent. That case is recorded under Findings, through `Schemas.ReplaceCollision`.
- Fields are values. So `field.copy()` in `copy` yields an equal field, and the in-place edits of the caller's field object by `MetadataSchema.addField` and `changeSchemataForField` are not visible to other holders of that object.
- Schemas.Schema.Copy: the `factory` argument of `Schema.copy` is not modelled; the copy is always of the schema's own class. A copy of a `MetadataSchema` gets new storages through its `addField`, so the model only states it through the re-added fields.
- The `MetadataStorage()` objects created on each `MetadataSchema.addField` are parameters (`storage`, and `storage(k)` for the k-th add). The module-level `MDS` instance is unused by the core.
- The class attribute `_properties` of `BasicSchema` is `{}` and shadows `SchemaLayerContainer._properties` in method resolution order, so properties start from the keyword arguments alone, as modelled.
- `Schemata(name, fields)` given a single field wraps it in a tuple. `Schemas.Schema.NewSchemata` takes that tuple, a one-element sequence.
- The instance, `item` and `container` arguments of the layer calls, and what the layer objects do when called, are not modelled. `InitializeLayers` and `CleanupLayers` return the sequence of calls made, each naming the layer pair and, for field calls, the field.
- `updateAll` returns the mutator calls it would make, each as a field and a value. The mutators' effect on the instance is not modelled.
- `validate`: `instance.Schemata()` is the parameter `groups`. `widget.process_form`, the edit and view accessors and `field.validate` are the parameters `processForm`, `accessor` and `check`, and the empty marker is folded into `None`. `errors` is a dictionary; the default `errors=None` with a failing field, which raises TypeError, is not modelled.
- Schemas.Schema.Validate: `field.validate` is the parameter `check`, a function of the field and its value. The source also passes it the `errors` dictionary being filled (lines 558-561). The model assumes that `field.validate` neither reads nor writes that dictionary, so `Queries.ValidatedSpec` holds only under that assumption.
- Schemas.DefaultField: `Field.py` is not part of this model. The field `StringField('<s>_default', schemata=s)` that `addSchemata` adds is therefore a parameter, fixed only in its name, type and schemata. Its other attributes (`primary`, `isMetadata`, `searchable`) and its layers are whatever the field class gives, so `addSchemata` may raise SchemaException for it only if it is primary.
- Queries.SearchableNames: a field lacking the `searchable` attribute raises AttributeError, as the unguarded attribute read does. Whether real fields always carry the attribute depends on `Field.py`, which is not part of this model.
- `editableFields`: `field.writeable(instance)` and the widget's edit visibility are the parameters `writeable` and `hiddenOnEdit`. `filterFields` predicates are total boolean functions, and attribute equality is the model's `Equal` on values.
- The unused locals `fieldnames` and `d` of `moveSchemata` and `moveField` have no counterpart.
- The ReferenceEngine parts are modelled as follows:
  - `make_uuid` is the parameter `minted`.
  - The UID catalog tool is the catalog's `uidCatalog`, a sequence of brains in catalog order.
  - `isReferenceable` is the object's `referenceable` flag.
  - `IUID(source)()` and `IUID(target)()` are the UIDs passed to the `Reference` constructor.
  - The UID query utility of `_getObject` is the parameter `query`.
  - `getSourceObject` is the parameter `source`.
  - A `ReferenceException` from `delHook` is the flag `vetoed`.
- The `Reference` constructor's requirement that `self`, `id`, `source`, `target` and `relationship` are not among the keyword arguments mirrors Python, where these are named parameters and cannot be passed again by keyword (a TypeError). `sourceUID` and `targetUID` are not parameter names: passed by keyword, they override the UIDs taken from source and target, as modelled.
- ReferenceEngine.GetObject: `Target.Uid` stands for both `str` and `unicode` UIDs. `_getObject` tests for `str` only, so it returns a `unicode` UID unchanged instead of resolving it; the model does not capture that difference. `_uidFor` tests for both string types, as modelled.
- ReferenceEngine.ReferenceCatalog.UidFor: a `unicode` UID is treated as a UID, like a `str` one; the model does not tell the two apart.
- Fields.Qualified: `Value.Str` is a `str` and `Value.Unicode` a `unicode` string. `_validateOnAdd` accepts only a `str` relationship, so `Schemas.Schema.AddField` refuses a `unicode` one with ReferenceException (`Fields.UnicodeRelationshipRefused`). The two compare equal on the same characters (`Py.Equal`) and find the same dictionary key (`Py.Text`); the model takes every character to be ASCII, so it leaves out Python 2's decoding of a non-ASCII `str`. `u''` is false in `ReferenceEngine.QueryFor` and `ReferenceEngine.Assigned`, as in Python.
- `_queryFor` is modelled up to the query it builds; `searchResults` and its `merge` flag are not part of this model.
- `UUID_ATTR` is defined in `config.py`, which is not part of this model; its value is taken as `_at_uid`.
- A source object without a reference annotations container (an AttributeError from `_getReferenceAnnotations`) is not modelled. The annotations are a set of reference UIDs.
- The other operations of the reference catalog are outside the modelled core. These include adding, getting and deleting references in bulk, `lookupObject`, `reference_url` and `unregisterObject`.

## Findings

| source | as written | input that shows it | evidently intended | confidence | as-written member | corrected member |
|---|---|---|---|---|---|---|
| Products/Archetypes/Schema/__init__.py:416-417 | when fields are passed to `BasicSchema(...)` one by one rather than as a list, the loop adds `args[0]` once per argument; the loop variable `field` is unused | `BasicSchema(a, b)` with two distinct plain fields `a`, `b`: the schema holds only `a` | add each positional field, `self.addField(field)`. The docstring (lines 392-393) says that arguments after a leading list are ignored, which does not cover this loop | medium, not executed | Schemas.PositionalFieldsLost | Schemas.AddedSpec |
| Products/Archetypes/Schema/__init__.py:614-625 | `replaceField(name, field)` writes the new name over the old one in `_names` and re-keys `_fields`, without checking whether another field already has the new name | `[a, b]` with `replaceField(a.name, f)` and `f.getName() == b.name`: `_names` lists `b.name` twice and `_fields` holds only `f`, so `b` is lost | refuse, or first remove, another field with the new name, so `_names` and `_fields` stay in step | high, not executed | Schemas.ReplaceCollision | Schemas.SwapSpec |


