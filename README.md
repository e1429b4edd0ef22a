# JContainers: load-time fix-up of items and containers

JContainers keeps script data (arrays, maps, form-keyed maps) in containers whose
values are `item`s: null, a 32-bit integer, a 32-bit float, a string, a reference to
another container, or a FormId naming an entity of the host game. A FormId is
only meaningful within one game session, because the load order of plugins can
change between sessions. When a saved state is loaded, the library therefore
fixes up everything read from the archive. This project models that fix-up and
proves its properties in Dafny.

- `items.dfy` (module `Items`) holds the value types: `FormId`, `Int32`, `Float32`,
  `Item`, and the rule that assigning `FormZero` to an item makes it null.
- `item_load.dfy` (module `ItemLoad`) covers `item::load` and `item::save`:
  - the class-version switch: version 2 is the current variant, version 1 the
    0.67 variant with its converter, version 0 the 0.66 tagged record;
  - the FormId post-pass that resolves a loaded form once against the current
    session;
  - a reference writer for each legacy format, so the readers can be proved to
    invert them.
- `form_map.dfy` (module `FormMaps`) covers `form_map::u_onLoaded`:
  - a specification `Run` of the loop over the live ordered map. The iterator is a
    cursor `lo`, and the next entry is always the smallest key at or above `lo` in
    the map as it is at that moment.
  - the keep, erase, swap and move rules (`Step`).
  - the multiset of values the map holds (`ValueBag`), used to show the loop never
    invents or duplicates a value.
  - counterexamples showing that the loop as written can resolve a value twice,
    and so undo a swap, move a value too far or erase it.
  - a corrected fix-up, `ResolvedOnce`, that resolves each saved key exactly once.
  - the class `FormMap`, whose methods run the loop in place.
- `array.dfy` (module `Arrays`) covers `array::u_nullifyObjects`, the class
  `JArray` and its in-place pass.

Session lookups are parameters of the model:

- `form_handling::resolve_handle` is `resolve: FormId -> FormId`.
- `item::u_nullifyObject` is `nullify: Item -> Item`.

## Model

| member | source | states |
|---|---|---|
| Items.FromFormId | JContainers/src/api_3/collections.tests.hpp:96-97 | Assigning `FormZero` gives a null item. Any other id gives a form holding that id. |
| ItemLoad.ConvertOld | JContainers/src/collections.cpp:64-78 | The 0.67 converter: a blank leaves the target untouched, and an old owning object reference becomes an internal reference to the same pointer. Every other alternative is copied, so downgrading the result gives back the old value. |
| ItemLoad.ConvertOldInvertsDowngrade | JContainers/src/collections.cpp:80-87 | Converting what a 0.67 writer stored gives back the item. A null instead leaves the target as it was. |
| ItemLoad.ReadRecord | JContainers/src/collections.cpp:101-140 | The 0.66 reader: tags 1-5 yield an int, a float, a string, an object reference, or a form carrying the raw 32-bit id. Tag 0 and unknown tags leave the item unchanged. On typed records it inverts `WriteRecord`. |
| ItemLoad.WriteRecord | JContainers/src/collections.cpp:92-99 | The 0.66 record of an item: a null item is written exactly as the record tagged `ItemTypeNone`. |
| ItemLoad.ReadRecordInvertsWriteRecord | JContainers/src/collections.cpp:101-140 | Reading what a 0.66 writer stored gives back the item. A null instead leaves the item as it was. |
| ItemLoad.ResolveLoaded | JContainers/src/collections.cpp:163-165 | The post-pass replaces a form by its resolved id, and a form that resolves to `FormZero` becomes null. Every other item is left alone. No form holding `FormZero` survives. |
| ItemLoad.Decode | JContainers/src/collections.cpp:146-161 | The version switch: it fails exactly for a version above 2 and names that version. A form the legacy readers yield is the raw stored id (or the item loaded into, left untouched by a blank or untyped record), so nothing is resolved before the post-pass. |
| ItemLoad.Load | JContainers/src/collections.cpp:143-166 | A load fails exactly when the stored version is above 2, and then reports that version. Versions 2, 1 and 0 decode with their own reader, and the post-pass follows. |
| ItemLoad.SaveLoadRoundTrip | JContainers/src/collections.cpp:143-171 | A save followed by a load gives back every non-form item unchanged. A form comes back resolved, and unchanged when its id resolves to itself. |
| ItemLoad.FormResolvedOnceAtEveryVersion | JContainers/src/collections.cpp:143-166 | A form stored under version 2, 1 or 0 loads as its id resolved exactly once. |
| ItemLoad.Legacy1LoadsLikeCurrent | JContainers/src/collections.cpp:154-156 | A non-null item stored by a 0.67 writer loads like the same item stored by `save`. |
| ItemLoad.Legacy0LoadsLikeCurrent | JContainers/src/collections.cpp:158-160 | A non-null item stored by a 0.66 writer loads like the same item stored by `save`. |
| FormMaps.NextKey | JContainers/src/collections.cpp:203 | Where the ordered iterator stands after the cursor: when it names an entry, that entry is in the map at or above the cursor. `NextKeyIsLeast` proves it is the least such key. |
| FormMaps.NextKeyIsLeast | JContainers/src/collections.cpp:203 | The iterator stands on `k` exactly when `k` is the least key at or above the cursor. It stands at the end exactly when every key is below the cursor. |
| FormMaps.FormMap.LeastKeyFrom | JContainers/src/collections.cpp:203 | The key returned is the one the ordered iterator stands on. |
| FormMaps.Step | JContainers/src/collections.cpp:205-231 | The loop body for one entry: it adds no key other than the resolved one, a value that is not erased ends under its resolved key, and an erased key is gone. `StepRules` states each branch in full. |
| FormMaps.StepRules | JContainers/src/collections.cpp:205-231 | Keep: a key that resolves to itself keeps its entry. Erase: a key that resolves to `FormZero` loses its entry. Swap: a new key that is another entry's key exchanges the two values. Move: a free new key receives the value and the old key goes away. Nothing else changes and the count never grows. |
| FormMaps.SwapConservesValues | JContainers/src/collections.cpp:222-226 | Swapping two values leaves the multiset of values unchanged. |
| FormMaps.MoveConservesValues | JContainers/src/collections.cpp:228-231 | Moving a value to a free key leaves the multiset of values unchanged. |
| FormMaps.StepConservesValues | JContainers/src/collections.cpp:205-231 | After one step, the values in the map plus the erased value equal the values before. |
| FormMaps.Run | JContainers/src/collections.cpp:203-233 | The loop over the live map from a cursor position: values once erased stay erased. `RunConservesValues` relates what is left and what is erased to what there was. |
| FormMaps.OnLoadedSpec | JContainers/src/collections.cpp:201-234 | The whole fix-up from the first entry: every loaded entry ends either in the map or as exactly one erased value. |
| FormMaps.RunConservesValues | JContainers/src/collections.cpp:201-234 | From any cursor position, the values left plus the values erased equal the values at that position plus those already erased. |
| FormMaps.OnLoadedNeverInventsValues | JContainers/src/collections.cpp:201-234 | The fix-up's final values are a sub-multiset of the original ones, with only erased values missing. The entry count never grows. |
| FormMaps.RunKeepsSettledMap | JContainers/src/collections.cpp:208-209 | When every key resolves to itself, the loop changes nothing and erases nothing. |
| FormMaps.FormMap.VisitEntry | JContainers/src/collections.cpp:203-231 | One turn of the loop: the key handled is the one the iterator stands on, the new map is `Step` at that key, the erased values grow by what that step erases, and the cursor moves to just past that key. What the rest of the loop yields is unchanged by the turn. |
| FormMaps.FormMap.OnLoaded | JContainers/src/collections.cpp:201-234 | Walking the live map in place leaves exactly the map `OnLoadedSpec` gives, and erases exactly the values it names. |
| FormMaps.SwappedPluginsEndUnswapped | JContainers/src/collections.cpp:214-226 | As written, two ids that resolve to each other are swapped and then swapped back, so the map ends as it was loaded. |
| FormMaps.MovedEntryResolvedTwice | JContainers/src/collections.cpp:228-230 | As written, a value moved to a larger id is met again and resolved a second time. |
| FormMaps.MovedEntryErasedOnSecondPass | JContainers/src/collections.cpp:228-230 | As written, a value moved to a larger id whose own id now resolves to `FormZero` is met again and erased, so the map ends empty. |
| FormMaps.ResolvedOnceNeverInventsValues | JContainers/src/collections.cpp:201-234 | Resolving once also keeps every value either in the map or among the erased ones, and never grows the map. |
| FormMaps.ResolveOnceKeepsPlaced | JContainers/src/collections.cpp:222-224 | With each key resolved once, a value already placed under an id is never overwritten by a later one. |
| FormMaps.ResolveOnceKeys | JContainers/src/collections.cpp:205-231 | With each key resolved once, the final ids are exactly the placed ids plus the resolved ids of the surviving entries. |
| FormMaps.ResolvedOnceMovesEveryValue | JContainers/src/collections.cpp:205-231 | When no two saved keys resolve to the same id, every surviving value ends under its resolved id, and the map holds nothing else. |
| FormMaps.SwappedPluginsSwappedWhenResolvedOnce | JContainers/src/collections.cpp:216-226 | Resolving once sends the values of two cross-swapped ids to each other's ids. |
| FormMaps.MovedEntryResolvedOnce | JContainers/src/collections.cpp:228-231 | Resolving once moves a value to its new id and leaves it there. |
| FormMaps.MovedIntoRemovedSlotLosesValue | JContainers/src/collections.cpp:211-226 | As written, when `a` resolves to `b` and `b` resolves to `FormZero`, the values are swapped at `a`, and `b` is then erased. The removed plugin's value survives under `a`, and the value saved under `a` is erased. |
| FormMaps.MovedIntoRemovedSlotResolvedOnce | JContainers/src/collections.cpp:211-226 | Resolving once, the value saved under `a` ends under `b`, and only the removed plugin's value is erased. |
| FormMaps.FormMap.OnLoadedResolvedOnce | JContainers/src/collections.cpp:201-234 | The corrected fix-up in place equals `ResolvedOnce`. It conserves values, never grows the map, and moves every surviving value under its resolved id when no two keys collide. |
| Arrays.NullifyAll | JContainers/src/collections.cpp:238-242 | The pass over an array keeps its length; `NullifyAllAt` states each element. |
| Arrays.NullifyAllAt | JContainers/src/collections.cpp:238-242 | The pass over an array keeps its length and replaces each element by `nullify` of the element at the same index. |
| Arrays.JArray.NullifyObjects | JContainers/src/collections.cpp:238-242 | The in-place pass leaves exactly `NullifyAll` of the old items: the same length, with each element mapped by `nullify`. |

## Left out

- ItemLoad.Load: an unknown class version gives an error result. In the source it is a `BOOST_ASSERT`, which stops a debug build. In a release build the item would keep its previous value and the FormId post-pass would still run; that path is not modelled.
- The Boost archive byte format is not modelled. An archive is represented by what its bytes decode to under the version it names (`Archived`).
- The reference counting of `internal_object_ref` is not modelled, nor the "do not retain" flag passed at line 128 of collections.cpp. An object reference keeps only the pointer, and a null pointer is not turned into a null item.
- `form_handling::resolve_handle` and `item::u_nullifyObject` are not part of this model; they appear as the parameters `resolve` and `nullify`.
- A 32-bit float is carried as its bit pattern only; no floating-point arithmetic takes place.
- The `serialize` members of `array`, `map`, `form_map` and `integer_map` (collections.cpp:175-197) only pass their containers to the archive and are not modelled.
- The per-object lock that the `u_` prefix says the caller holds is not modelled. The model is sequential.
- FormMaps.FormMap.OnLoaded: its contract ties the result to `OnLoadedSpec`. The value-multiset and size bounds are proved about `OnLoadedSpec` in `OnLoadedNeverInventsValues` rather than repeated on the method.

## Findings

| source | as written | input that shows it | evidently intended | confidence | as-written member | corrected member |
|---|---|---|---|---|---|---|
| JContainers/src/collections.cpp:222-226 | When the new key is another entry's old key, the two values are swapped and the iterator moves on. When it reaches that other entry, that entry's key resolves back and the values are swapped again. | A map `{a: x, b: y}` with `0 < a < b`, `resolve(a) == b` and `resolve(b) == a`: the map ends as `{a: x, b: y}` | The comment at lines 216-220 describes two plugins whose ids were cross-swapped: `x` should end under `b` and `y` under `a` | not executed | FormMaps.SwappedPluginsEndUnswapped | FormMaps.SwappedPluginsSwappedWhenResolvedOnce |
| JContainers/src/collections.cpp:228-230 | The value is inserted under the new key, and the iterator moves past the old key. If the new key is larger, the iterator meets the value again and resolves the already-resolved id a second time. | A map `{a: v}` with `a < b < c`, `resolve(a) == b`, `resolve(b) == c` and `resolve(c) == c`: the map ends as `{c: v}` | Each saved id is resolved once, so the map should end as `{b: v}` | not executed | FormMaps.MovedEntryResolvedTwice | FormMaps.MovedEntryResolvedOnce |
| JContainers/src/collections.cpp:228-230 | The same second visit erases the value when the new id itself resolves to `FormZero`, as when one plugin is removed and another moves into its load slot. | A map `{a: v}` with `a < b`, `resolve(a) == b` and `resolve(b) == FormZero`: the map ends empty and `v` is erased | The value stays, so the map should end as `{b: v}` | not executed | FormMaps.MovedEntryErasedOnSecondPass | FormMaps.MovedEntryResolvedOnce |
| JContainers/src/collections.cpp:211-226 | When the new key is another entry's old key, the two values are swapped, even when that other key itself resolves to `FormZero`. The iterator then reaches that key and erases its entry, which now holds the swapped-in value. | A map `{a: x, b: y}` with `0 < a < b`, `resolve(a) == b` and `resolve(b) == FormZero`: the map ends as `{a: y}` and `x` is erased | Plugin A moved into the slot of the removed plugin B, so `x` should end under `b` and `y` be erased | not executed | FormMaps.MovedIntoRemovedSlotLosesValue | FormMaps.MovedIntoRemovedSlotResolvedOnce |

The corrected fix-up, `ResolvedOnce`, walks a snapshot of the loaded map in
ascending key order. It places each surviving value under its resolved id in a new
map. `FormMap.OnLoadedResolvedOnce` implements it in place, and
`ResolvedOnceMovesEveryValue` and `ResolvedOnceNeverInventsValues` state its
properties.

`ResolvedOnce` is put forward as the intended behaviour only when no two saved
keys resolve to the same id (`InjectiveOn`), which is the case
`ResolvedOnceMovesEveryValue` covers. When two keys do collide, `ResolvedOnce`
lets the smaller key keep the id and counts the other value as erased, even when
the other key resolves to itself. The source's swap keeps both values in that
case: with `{a: x, b: y}`, `resolve(a) == b` and `resolve(b) == b`, the source ends
with `x` under `b` and `y` under `a`, while `ResolvedOnce` ends with `{b: x}` and
erases `y`. Neither outcome is evidently the intended one.
