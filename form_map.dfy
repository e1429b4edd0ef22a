/**
 * The load-time fix-up of a form-keyed map (`form_map::u_onLoaded`).
 *
 * After a saved state is loaded, every key of a map from FormId to item is
 * resolved against the current session's plugin table. The source walks the
 * live ordered map with one iterator, in ascending key order, while it erases,
 * inserts and swaps entries. The iterator is modelled by a lower bound `lo`: the
 * entry processed next is the one with the smallest key at or above `lo`, looked
 * up in the map as it is at that moment, and after an entry with key `k` has
 * been handled the bound becomes `k + 1`.
 */
module FormMaps {
  import opened Items

  datatype Option<T> = None | Some(value: T)

  /** One above the largest FormId: the cursor can never pass it. */
  const KeyLimit: nat := 0x1_0000_0000

  // ---------------------------------------------------------------------------
  // Ordered traversal

  /** A set of ids that holds `x` has a least element, found by descending from `x`. */
  lemma {:induction false} LeastExists(s: set<FormId>, x: FormId)
    requires x in s
    ensures exists k :: k in s && forall j :: j in s ==> k <= j
    decreases x as int
  {
    if exists y :: y in s && y < x {
      var y :| y in s && y < x;
      LeastExists(s, y);
    } else {
      assert forall j :: j in s ==> x <= j;
    }
  }

  /** The keys the iterator has not yet reached. */
  function KeysFrom(m: map<FormId, Item>, lo: int): set<FormId>
  {
    set j | j in m && lo <= j as int
  }

  /**
   * The key the iterator stands on: scanning the ids upwards from `lo`, the first
   * one that is a key of the map, or the end of the map when none is.
   */
  ghost function NextKey(m: map<FormId, Item>, lo: int): (next: Option<FormId>)
    ensures next.Some? ==> next.value in m && lo <= next.value as int
    decreases KeyLimit - lo
  {
    if lo >= KeyLimit then None
    else if 0 <= lo && lo as FormId in m then Some(lo as FormId)
    else NextKey(m, lo + 1)
  }

  /**
   * The iterator stands on `k` exactly when `k` is a key at or above `lo` and no
   * key lies between `lo` and `k`; it stands at the end exactly when every key is below `lo`.
   */
  lemma {:induction false} NextKeyIsLeast(m: map<FormId, Item>, lo: int, k: FormId)
    ensures NextKey(m, lo) == Some(k) <==>
              k in m && lo <= k as int && forall j :: j in m && lo <= j as int ==> k <= j
    ensures NextKey(m, lo) == None <==> forall j :: j in m ==> j as int < lo
    decreases KeyLimit - lo
  {
    if lo >= KeyLimit {
    } else if 0 <= lo && lo as FormId in m {
    } else {
      NextKeyIsLeast(m, lo + 1, k);
      assert forall j :: j in m && lo <= j as int ==> lo + 1 <= j as int;
    }
  }

  // ---------------------------------------------------------------------------
  // The value multiset of a map

  /** Removing a key that is present takes one entry away. */
  lemma RemoveSize(m: map<FormId, Item>, k: FormId)
    requires k in m
    ensures |m - {k}| == |m| - 1
  {
    assert (m - {k}).Keys == m.Keys - {k};
  }

  /** Some key of a non-empty map, always the same one for the same map. */
  ghost function AnyKey(m: map<FormId, Item>): (k: FormId)
    requires m != map[]
    ensures k in m
  {
    var k :| k in m; k
  }

  /** The values of a map, counted with multiplicity. */
  ghost function ValueBag(m: map<FormId, Item>): multiset<Item>
    decreases |m|
  {
    if m == map[] then multiset{}
    else
      var k := AnyKey(m);
      RemoveSize(m, k);
      ValueBag(m - {k}) + multiset{m[k]}
  }

  /** Removing any one entry removes exactly its value from the value multiset. */
  lemma {:induction false} ValueBagRemove(m: map<FormId, Item>, k: FormId)
    requires k in m
    ensures ValueBag(m) == ValueBag(m - {k}) + multiset{m[k]}
    decreases |m|
  {
    var x := AnyKey(m);
    if x != k {
      var mx, mk := m - {x}, m - {k};
      var both := m - {x, k};
      assert mx - {k} == both && mk - {x} == both && k in mx && x in mk by {
        assert mx - {k} == both;
        assert mk - {x} == both;
      }
      RemoveSize(m, x);
      RemoveSize(m, k);
      assert ValueBag(m) == ValueBag(mx) + multiset{m[x]};
      ValueBagRemove(mx, k);
      ValueBagRemove(mk, x);
      assert ValueBag(mx) == ValueBag(both) + multiset{m[k]};
      assert ValueBag(mk) == ValueBag(both) + multiset{m[x]};
    }
  }

  /** A map has as many values as keys. */
  lemma {:induction false} ValueBagSize(m: map<FormId, Item>)
    ensures |ValueBag(m)| == |m|
    decreases |m|
  {
    if m != map[] {
      var k := AnyKey(m);
      RemoveSize(m, k);
      ValueBagSize(m - {k});
    }
  }

  // ---------------------------------------------------------------------------
  // One iteration of the loop

  /**
   * One pass of the loop body over the entry under key `k`: keep it when its key
   * resolves to itself, erase it when the key resolves to FormZero, swap its value
   * with the entry under the new key when there is one, and otherwise move it there.
   * Unless it is erased, the value ends under its resolved key, and no key other
   * than that one is added.
   */
  function Step(m: map<FormId, Item>, k: FormId, resolve: FormId -> FormId): (r: map<FormId, Item>)
    requires k in m
    ensures r.Keys <= m.Keys + {resolve(k)}
    ensures resolve(k) != FormZero ==> resolve(k) in r && r[resolve(k)] == m[k]
    ensures resolve(k) == FormZero && k != FormZero ==> k !in r
  {
    var newKey := resolve(k);
    if k == newKey then m
    else if newKey == FormZero then m - {k}
    else if newKey in m then m[newKey := m[k]][k := m[newKey]]
    else m[newKey := m[k]] - {k}
  }

  /** The four rules for the entry under key `k`, whose key resolves to `resolve(k)`. */
  lemma StepRules(m: map<FormId, Item>, k: FormId, resolve: FormId -> FormId)
    requires k in m
    // keep: a key that resolves to itself keeps its entry
    ensures resolve(k) == k ==> Step(m, k, resolve) == m
    // erase: a key that resolves to FormZero loses its entry, nothing else changes
    ensures resolve(k) != k && resolve(k) == FormZero ==>
              var s := Step(m, k, resolve);
              s.Keys == m.Keys - {k} && forall j :: j in s ==> s[j] == m[j]
    // swap: the new key already has an entry, so the two values change places
    ensures resolve(k) != k && resolve(k) != FormZero && resolve(k) in m ==>
              var s := Step(m, k, resolve);
              && s.Keys == m.Keys
              && s[resolve(k)] == m[k] && s[k] == m[resolve(k)]
              && forall j :: j in s && j != k && j != resolve(k) ==> s[j] == m[j]
    // move: the value goes to the free new key, the old key goes away, the count stays
    ensures resolve(k) != k && resolve(k) != FormZero && resolve(k) !in m ==>
              var s := Step(m, k, resolve);
              && s.Keys == m.Keys - {k} + {resolve(k)}
              && |s| == |m|
              && s[resolve(k)] == m[k]
              && forall j :: j in s && j != resolve(k) ==> s[j] == m[j]
    // no step adds an entry
    ensures |Step(m, k, resolve)| <= |m|
  {
    var newKey := resolve(k);
    var s := Step(m, k, resolve);
    if k == newKey {
    } else if newKey == FormZero {
      RemoveSize(m, k);
    } else if newKey in m {
      assert s.Keys == m.Keys;
    } else {
      assert s.Keys == m.Keys - {k} + {newKey};
      RemoveSize(m, k);
      assert |m.Keys - {k} + {newKey}| == |m.Keys - {k}| + 1;
    }
  }

  /** The value a step throws away: the entry's own value if it is erased, nothing otherwise. */
  function StepErased(m: map<FormId, Item>, k: FormId, resolve: FormId -> FormId): multiset<Item>
    requires k in m
  {
    if resolve(k) != k && resolve(k) == FormZero then multiset{m[k]} else multiset{}
  }

  /** Exchanging the values of two keys leaves the value multiset as it was. */
  lemma SwapConservesValues(m: map<FormId, Item>, a: FormId, b: FormId)
    requires a in m && b in m && a != b
    ensures ValueBag(m[b := m[a]][a := m[b]]) == ValueBag(m)
  {
    var s := m[b := m[a]][a := m[b]];
    var sa, ma := s - {a}, m - {a};
    assert sa - {b} == ma - {b} by {
      assert (sa - {b}).Keys == (ma - {b}).Keys;
    }
    assert ValueBag(s) == ValueBag(sa - {b}) + multiset{m[a]} + multiset{m[b]} by {
      ValueBagRemove(s, a);
      ValueBagRemove(sa, b);
    }
    assert ValueBag(m) == ValueBag(ma - {b}) + multiset{m[b]} + multiset{m[a]} by {
      ValueBagRemove(m, a);
      ValueBagRemove(ma, b);
    }
  }

  /** Moving a value to a free key leaves the value multiset as it was. */
  lemma MoveConservesValues(m: map<FormId, Item>, k: FormId, nk: FormId)
    requires k in m && nk !in m
    ensures ValueBag(m[nk := m[k]] - {k}) == ValueBag(m)
  {
    var s := m[nk := m[k]] - {k};
    assert s - {nk} == m - {k} && nk in s && s[nk] == m[k] by {
      assert s - {nk} == m - {k};
    }
    ValueBagRemove(s, nk);
    ValueBagRemove(m, k);
  }

  /** No step invents or duplicates a value: what remains plus what was erased is what there was. */
  lemma StepConservesValues(m: map<FormId, Item>, k: FormId, resolve: FormId -> FormId)
    requires k in m
    ensures ValueBag(Step(m, k, resolve)) + StepErased(m, k, resolve) == ValueBag(m)
  {
    var nk := resolve(k);
    if k == nk {
    } else if nk == FormZero {
      ValueBagRemove(m, k);
    } else if nk in m {
      SwapConservesValues(m, k, nk);
    } else {
      MoveConservesValues(m, k, nk);
    }
  }

  // ---------------------------------------------------------------------------
  // The whole loop

  /** The map after the loop and the multiset of the values it erased. */
  datatype Outcome = Outcome(cnt: map<FormId, Item>, erased: multiset<Item>)

  /**
   * The loop from the iterator position `lo` on, over the live map `m`; `gone`
   * holds the values the loop has erased so far.
   */
  ghost function Run(m: map<FormId, Item>, lo: nat, gone: multiset<Item>, resolve: FormId -> FormId): (r: Outcome)
    requires lo <= KeyLimit
    ensures gone <= r.erased
    decreases KeyLimit - lo
  {
    match NextKey(m, lo)
    case None => Outcome(m, gone)
    case Some(k) => Run(Step(m, k, resolve), k as nat + 1, gone + StepErased(m, k, resolve), resolve)
  }

  /**
   * The whole of `u_onLoaded`, from the first entry: every entry of the loaded map
   * ends either in the map or as one erased value.
   */
  ghost function OnLoadedSpec(m: map<FormId, Item>, resolve: FormId -> FormId): (r: Outcome)
    ensures |r.cnt| + |r.erased| == |m|
  {
    var o := Run(m, 0, multiset{}, resolve);
    RunConservesValues(m, 0, multiset{}, resolve);
    assert ValueBag(m) + multiset{} == ValueBag(m);
    ValueBagSize(m);
    ValueBagSize(o.cnt);
    o
  }

  /** One iteration of `Run`. */
  lemma RunUnfold(m: map<FormId, Item>, lo: nat, k: FormId, gone: multiset<Item>, resolve: FormId -> FormId)
    requires lo <= KeyLimit
    requires NextKey(m, lo) == Some(k)
    ensures Run(m, lo, gone, resolve) == Run(Step(m, k, resolve), k as nat + 1, gone + StepErased(m, k, resolve), resolve)
  {
  }

  /** `Run` at the end of the map. */
  lemma RunAtEnd(m: map<FormId, Item>, lo: nat, gone: multiset<Item>, resolve: FormId -> FormId)
    requires lo <= KeyLimit
    requires NextKey(m, lo) == None
    ensures Run(m, lo, gone, resolve) == Outcome(m, gone)
  {
  }

  /** Regrouping three multisets. */
  lemma BagRegroup(a: multiset<Item>, b: multiset<Item>, c: multiset<Item>)
    ensures a + (b + c) == (a + c) + b
  {
  }

  /** The induction step of `RunConservesValues`. */
  lemma RunStepConservesValues(m: map<FormId, Item>, lo: nat, k: FormId, gone: multiset<Item>, resolve: FormId -> FormId)
    requires lo <= KeyLimit
    requires NextKey(m, lo) == Some(k)
    requires ValueBag(Run(Step(m, k, resolve), k as nat + 1, gone + StepErased(m, k, resolve), resolve).cnt)
               + Run(Step(m, k, resolve), k as nat + 1, gone + StepErased(m, k, resolve), resolve).erased
             == ValueBag(Step(m, k, resolve)) + (gone + StepErased(m, k, resolve))
    ensures ValueBag(Run(m, lo, gone, resolve).cnt) + Run(m, lo, gone, resolve).erased == ValueBag(m) + gone
  {
    RunUnfold(m, lo, k, gone, resolve);
    StepConservesValues(m, k, resolve);
    BagRegroup(ValueBag(Step(m, k, resolve)), gone, StepErased(m, k, resolve));
  }

  /** What remains plus what was erased is what there was, from any iterator position. */
  lemma RunConservesValues(m: map<FormId, Item>, lo: nat, gone: multiset<Item>, resolve: FormId -> FormId)
    requires lo <= KeyLimit
    ensures ValueBag(Run(m, lo, gone, resolve).cnt) + Run(m, lo, gone, resolve).erased == ValueBag(m) + gone
    decreases KeyLimit - lo
  {
    var next := NextKey(m, lo);
    if next.Some? {
      var k := next.value;
      RunConservesValues(Step(m, k, resolve), k as nat + 1, gone + StepErased(m, k, resolve), resolve);
      RunStepConservesValues(m, lo, k, gone, resolve);
    } else {
      RunAtEnd(m, lo, gone, resolve);
    }
  }

  /**
   * `u_onLoaded` never duplicates or invents a value: the final values are the
   * original ones less those of erased entries, and the entry count never grows.
   */
  lemma OnLoadedNeverInventsValues(m: map<FormId, Item>, resolve: FormId -> FormId)
    ensures ValueBag(OnLoadedSpec(m, resolve).cnt) + OnLoadedSpec(m, resolve).erased == ValueBag(m)
    ensures ValueBag(OnLoadedSpec(m, resolve).cnt) <= ValueBag(m)
    ensures |OnLoadedSpec(m, resolve).cnt| + |OnLoadedSpec(m, resolve).erased| == |m|
    ensures |OnLoadedSpec(m, resolve).cnt| <= |m|
  {
    var o := OnLoadedSpec(m, resolve);
    RunConservesValues(m, 0, multiset{}, resolve);
    assert ValueBag(m) + multiset{} == ValueBag(m);
    ValueBagSize(m);
    ValueBagSize(o.cnt);
  }

  /** When every key resolves to itself the loop changes nothing and erases nothing. */
  lemma {:induction false} RunKeepsSettledMap(m: map<FormId, Item>, lo: nat, gone: multiset<Item>, resolve: FormId -> FormId)
    requires lo <= KeyLimit
    requires forall k :: k in m ==> resolve(k) == k
    ensures Run(m, lo, gone, resolve) == Outcome(m, gone)
    decreases KeyLimit - lo
  {
    var next := NextKey(m, lo);
    if next.Some? {
      var k := next.value;
      RunUnfold(m, lo, k, gone, resolve);
      assert Step(m, k, resolve) == m && gone + StepErased(m, k, resolve) == gone;
      RunKeepsSettledMap(m, k as nat + 1, gone, resolve);
    } else {
      RunAtEnd(m, lo, gone, resolve);
    }
  }

  // ---------------------------------------------------------------------------
  // What the loop does to swapped plugins and to moved entries

  /** A step that erases nothing hands the loop on to the next entry. */
  lemma RunThrough(m: map<FormId, Item>, lo: nat, k: FormId, resolve: FormId -> FormId)
    requires lo <= KeyLimit
    requires NextKey(m, lo) == Some(k)
    requires resolve(k) == k || resolve(k) != FormZero
    ensures Run(m, lo, multiset{}, resolve) == Run(Step(m, k, resolve), k as nat + 1, multiset{}, resolve)
  {
    RunUnfold(m, lo, k, multiset{}, resolve);
    assert multiset{} + StepErased(m, k, resolve) == multiset{};
  }

  /** A step that erases nothing, after which the iterator stands at the end. */
  lemma RunThroughToEnd(m: map<FormId, Item>, lo: nat, k: FormId, last: map<FormId, Item>, resolve: FormId -> FormId)
    requires lo <= KeyLimit
    requires NextKey(m, lo) == Some(k)
    requires resolve(k) == k || resolve(k) != FormZero
    requires Step(m, k, resolve) == last && NextKey(last, k as nat + 1) == None
    ensures Run(m, lo, multiset{}, resolve) == Outcome(last, multiset{})
  {
    RunThrough(m, lo, k, resolve);
    RunAtEnd(last, k as nat + 1, multiset{}, resolve);
  }

  /** The move of the entry under `a` to the free key `b`, and the iterator passing on to `b`. */
  lemma MovedEntryFirstMove(m: map<FormId, Item>, a: FormId, b: FormId, resolve: FormId -> FormId)
    requires a < b && m.Keys == {a} && resolve(a) == b
    ensures OnLoadedSpec(m, resolve) == Run(map[b := m[a]], a as nat + 1, multiset{}, resolve)
  {
    assert NextKey(m, 0) == Some(a) by {
      NextKeyIsLeast(m, 0, a);
    }
    RunThrough(m, 0, a, resolve);
    assert Step(m, a, resolve) == map[b := m[a]];
  }

  /** The entry, now under `b`, is resolved again and moves on to `c`. */
  lemma MovedEntrySecondMove(v: Item, a: FormId, b: FormId, c: FormId, resolve: FormId -> FormId)
    requires a < b < c && resolve(b) == c
    ensures Run(map[b := v], a as nat + 1, multiset{}, resolve) == Run(map[c := v], b as nat + 1, multiset{}, resolve)
  {
    var m2 := map[b := v];
    assert NextKey(m2, a as nat + 1) == Some(b) by {
      NextKeyIsLeast(m2, a as nat + 1, b);
    }
    RunThrough(m2, a as nat + 1, b, resolve);
    assert Step(m2, b, resolve) == map[c := v];
  }

  /** The entry under `c`, which resolves to itself, is kept and the loop ends. */
  lemma MovedEntrySettles(v: Item, b: FormId, c: FormId, resolve: FormId -> FormId)
    requires b < c && resolve(c) == c
    ensures Run(map[c := v], b as nat + 1, multiset{}, resolve) == Outcome(map[c := v], multiset{})
  {
    var m3 := map[c := v];
    assert NextKey(m3, b as nat + 1) == Some(c) by {
      NextKeyIsLeast(m3, b as nat + 1, c);
    }
    RunThrough(m3, b as nat + 1, c, resolve);
    assert NextKey(m3, c as nat + 1) == None by {
      NextKeyIsLeast(m3, c as nat + 1, c);
    }
    RunAtEnd(m3, c as nat + 1, multiset{}, resolve);
  }

  /** The entry under `a` swaps values with the one under `b`, and the iterator passes on to `b`. */
  lemma SwappedPluginsFirstSwap(m: map<FormId, Item>, a: FormId, b: FormId, resolve: FormId -> FormId)
    requires a < b && m.Keys == {a, b} && resolve(a) == b
    ensures OnLoadedSpec(m, resolve) == Run(m[b := m[a]][a := m[b]], a as nat + 1, multiset{}, resolve)
  {
    assert NextKey(m, 0) == Some(a) by {
      NextKeyIsLeast(m, 0, a);
    }
    RunThrough(m, 0, a, resolve);
  }

  /** Swapping the values of two keys twice gives back the map. */
  lemma SwapTwice(m: map<FormId, Item>, a: FormId, b: FormId)
    requires a in m && b in m
    ensures var s := m[b := m[a]][a := m[b]]; s[a := s[b]][b := s[a]] == m
  {
  }

  /** The step at `b` undoes the swap made at `a`. */
  lemma SwapBack(m: map<FormId, Item>, a: FormId, b: FormId, resolve: FormId -> FormId)
    requires FormZero < a < b && m.Keys == {a, b} && resolve(b) == a
    ensures Step(m[b := m[a]][a := m[b]], b, resolve) == m
  {
    SwapTwice(m, a, b);
  }

  /** At `b` the two values are swapped back, and the loop ends. */
  lemma SwappedPluginsSwapBack(m: map<FormId, Item>, a: FormId, b: FormId, resolve: FormId -> FormId)
    requires FormZero < a < b && m.Keys == {a, b} && resolve(b) == a
    ensures Run(m[b := m[a]][a := m[b]], a as nat + 1, multiset{}, resolve) == Outcome(m, multiset{})
  {
    SwappedNextKey(m, a, b);
    SwapBack(m, a, b, resolve);
    PairAtEnd(m, a, b);
    RunThroughToEnd(m[b := m[a]][a := m[b]], a as nat + 1, b, m, resolve);
  }

  /** After the swap at `a`, the map still has the keys `a < b`, so the iterator stands on `b` next. */
  lemma SwappedNextKey(m: map<FormId, Item>, a: FormId, b: FormId)
    requires a < b && m.Keys == {a, b}
    ensures NextKey(m[b := m[a]][a := m[b]], a as nat + 1) == Some(b)
  {
    var swapped := m[b := m[a]][a := m[b]];
    assert swapped.Keys == {a, b};
    NextKeyIsLeast(swapped, a as nat + 1, b);
  }

  /** Past the larger of its two keys, the iterator over a two-entry map is at the end. */
  lemma PairAtEnd(m: map<FormId, Item>, a: FormId, b: FormId)
    requires a < b && m.Keys == {a, b}
    ensures NextKey(m, b as nat + 1) == None
  {
    NextKeyIsLeast(m, b as nat + 1, a);
  }

  /**
   * Two plugins whose load slots changed places, so that ids `a` and `b` resolve
   * to each other: the entry under `a` swaps values with the one under `b`, and
   * when the iterator reaches `b` it swaps them back. Every value ends where it
   * started, under the id that now names the other form.
   */
  lemma SwappedPluginsEndUnswapped(m: map<FormId, Item>, a: FormId, b: FormId, resolve: FormId -> FormId)
    requires FormZero < a < b && m.Keys == {a, b}
    requires resolve(a) == b && resolve(b) == a
    ensures OnLoadedSpec(m, resolve) == Outcome(m, multiset{})
  {
    SwappedPluginsFirstSwap(m, a, b, resolve);
    SwappedPluginsSwapBack(m, a, b, resolve);
  }

  /** A step that erases the entry under `k`, after which the iterator stands at the end. */
  lemma RunEraseToEnd(m: map<FormId, Item>, lo: nat, k: FormId, last: map<FormId, Item>, resolve: FormId -> FormId)
    requires lo <= KeyLimit
    requires NextKey(m, lo) == Some(k)
    requires k != FormZero && resolve(k) == FormZero
    requires m - {k} == last && NextKey(last, k as nat + 1) == None
    ensures Run(m, lo, multiset{}, resolve) == Outcome(last, multiset{m[k]})
  {
    RunUnfold(m, lo, k, multiset{}, resolve);
    assert Step(m, k, resolve) == last;
    assert multiset{} + StepErased(m, k, resolve) == multiset{m[k]};
    RunAtEnd(last, k as nat + 1, multiset{m[k]}, resolve);
  }

  /** Once the values under `a` and `b` are swapped, erasing `b` leaves the value saved under `b` alone under `a`. */
  lemma SwappedLessLarger(m: map<FormId, Item>, a: FormId, b: FormId)
    requires a < b && m.Keys == {a, b}
    ensures var s := m[b := m[a]][a := m[b]]; s - {b} == map[a := m[b]] && s[b] == m[a]
  {
    var s := m[b := m[a]][a := m[b]];
    assert (s - {b}).Keys == {a};
  }

  /** Past its only key, the iterator over a one-entry map is at the end. */
  lemma SingleAtEnd(v: Item, a: FormId, lo: nat)
    requires a as nat < lo <= KeyLimit
    ensures NextKey(map[a := v], lo) == None
  {
    NextKeyIsLeast(map[a := v], lo, a);
  }

  /** After the swap at `a`, the entry under `b` resolves to FormZero and is erased, and the loop ends. */
  lemma SwappedThenErased(m: map<FormId, Item>, a: FormId, b: FormId, resolve: FormId -> FormId)
    requires FormZero < a < b && m.Keys == {a, b} && resolve(b) == FormZero
    ensures Run(m[b := m[a]][a := m[b]], a as nat + 1, multiset{}, resolve) == Outcome(map[a := m[b]], multiset{m[a]})
  {
    SwappedNextKey(m, a, b);
    SwappedLessLarger(m, a, b);
    SingleAtEnd(m[b], a, b as nat + 1);
    RunEraseToEnd(m[b := m[a]][a := m[b]], a as nat + 1, b, map[a := m[b]], resolve);
  }

  /**
   * A plugin that moved into the load slot of a removed one: `a` resolves to `b`,
   * and `b` to FormZero. The loop swaps the two values at `a` and then erases `b`,
   * so the removed plugin's value survives under the stale id `a` and the value
   * saved under `a` is lost.
   */
  lemma MovedIntoRemovedSlotLosesValue(m: map<FormId, Item>, a: FormId, b: FormId, resolve: FormId -> FormId)
    requires FormZero < a < b && m.Keys == {a, b}
    requires resolve(a) == b && resolve(b) == FormZero
    ensures OnLoadedSpec(m, resolve) == Outcome(map[a := m[b]], multiset{m[a]})
  {
    SwappedPluginsFirstSwap(m, a, b, resolve);
    SwappedThenErased(m, a, b, resolve);
  }

  /**
   * An entry moved to a larger key is met again by the iterator and resolved a
   * second time: with `a` resolving to `b` and `b` to `c`, the value saved under
   * `a` ends under `c`, not under `b`.
   */
  lemma MovedEntryResolvedTwice(m: map<FormId, Item>, a: FormId, b: FormId, c: FormId, resolve: FormId -> FormId)
    requires a < b < c && m.Keys == {a}
    requires resolve(a) == b && resolve(b) == c && resolve(c) == c
    ensures OnLoadedSpec(m, resolve) == Outcome(map[c := m[a]], multiset{})
  {
    MovedEntryFirstMove(m, a, b, resolve);
    MovedEntrySecondMove(m[a], a, b, c, resolve);
    MovedEntrySettles(m[a], b, c, resolve);
  }

  /**
   * The second resolution can also lose the value: with `a` resolving to `b` and
   * `b` (a plugin slot now empty) to FormZero, the value saved under `a` is moved
   * to `b` and then erased.
   */
  lemma MovedEntryErasedOnSecondPass(m: map<FormId, Item>, a: FormId, b: FormId, resolve: FormId -> FormId)
    requires a < b && m.Keys == {a}
    requires resolve(a) == b && resolve(b) == FormZero
    ensures OnLoadedSpec(m, resolve) == Outcome(map[], multiset{m[a]})
  {
    MovedEntryFirstMove(m, a, b, resolve);
    MovedEntryErased(m[a], a, b, resolve);
  }

  /** The entry, now under `b`, is met again and erased, and the loop ends. */
  lemma MovedEntryErased(v: Item, a: FormId, b: FormId, resolve: FormId -> FormId)
    requires a < b && resolve(b) == FormZero
    ensures Run(map[b := v], a as nat + 1, multiset{}, resolve) == Outcome(map[], multiset{v})
  {
    var m2 := map[b := v];
    assert NextKey(m2, a as nat + 1) == Some(b) by {
      NextKeyIsLeast(m2, a as nat + 1, b);
    }
    RunUnfold(m2, a as nat + 1, b, multiset{}, resolve);
    assert Step(m2, b, resolve) == map[];
    assert multiset{} + StepErased(m2, b, resolve) == multiset{v};
    assert NextKey(map[], b as nat + 1) == None by {
      NextKeyIsLeast(map[], b as nat + 1, b);
    }
    RunAtEnd(map[], b as nat + 1, multiset{v}, resolve);
  }

  // ---------------------------------------------------------------------------
  // Resolving every saved key exactly once

  /** Whether the entry under `k` survives: its key resolves to itself or to a real id. */
  predicate Survives(k: FormId, resolve: FormId -> FormId)
  {
    resolve(k) == k || resolve(k) != FormZero
  }

  /**
   * Each saved key of `src`, in ascending order from `lo`, is resolved once and
   * its value placed under the resolved key in a fresh map `acc`. A key that
   * resolves to FormZero is erased, and so is a value whose resolved key an
   * earlier entry already took; `gone` holds the values erased so far.
   */
  ghost function ResolveOnceFrom(src: map<FormId, Item>, lo: nat, acc: map<FormId, Item>, gone: multiset<Item>,
                                 resolve: FormId -> FormId): Outcome
    requires lo <= KeyLimit
    decreases KeyLimit - lo
  {
    match NextKey(src, lo)
    case None => Outcome(acc, gone)
    case Some(k) =>
      if !Survives(k, resolve) || resolve(k) in acc then
        ResolveOnceFrom(src, k as nat + 1, acc, gone + multiset{src[k]}, resolve)
      else
        ResolveOnceFrom(src, k as nat + 1, acc[resolve(k) := src[k]], gone, resolve)
  }

  /** The fix-up with every saved key resolved exactly once. */
  ghost function ResolvedOnce(m: map<FormId, Item>, resolve: FormId -> FormId): Outcome
  {
    ResolveOnceFrom(m, 0, map[], multiset{}, resolve)
  }

  /** One iteration of `ResolveOnceFrom`. */
  lemma ResolveOnceUnfold(src: map<FormId, Item>, lo: nat, k: FormId, acc: map<FormId, Item>, gone: multiset<Item>,
                          resolve: FormId -> FormId)
    requires lo <= KeyLimit
    requires NextKey(src, lo) == Some(k)
    ensures !Survives(k, resolve) || resolve(k) in acc ==>
              ResolveOnceFrom(src, lo, acc, gone, resolve)
              == ResolveOnceFrom(src, k as nat + 1, acc, gone + multiset{src[k]}, resolve)
    ensures Survives(k, resolve) && resolve(k) !in acc ==>
              ResolveOnceFrom(src, lo, acc, gone, resolve)
              == ResolveOnceFrom(src, k as nat + 1, acc[resolve(k) := src[k]], gone, resolve)
  {
  }

  /** `ResolveOnceFrom` at the end of the saved map. */
  lemma ResolveOnceAtEnd(src: map<FormId, Item>, lo: nat, acc: map<FormId, Item>, gone: multiset<Item>,
                         resolve: FormId -> FormId)
    requires lo <= KeyLimit
    requires NextKey(src, lo) == None
    ensures ResolveOnceFrom(src, lo, acc, gone, resolve) == Outcome(acc, gone)
  {
  }

  /** The saved entries not yet reached. */
  ghost function EntriesFrom(m: map<FormId, Item>, lo: int): map<FormId, Item>
  {
    map j | j in KeysFrom(m, lo) :: m[j]
  }

  /** Passing the entry the iterator stands on removes it from the entries not yet reached. */
  lemma EntriesFromNext(m: map<FormId, Item>, lo: int, k: FormId)
    requires NextKey(m, lo) == Some(k)
    ensures k in EntriesFrom(m, lo) && EntriesFrom(m, lo)[k] == m[k]
    ensures EntriesFrom(m, k as int + 1) == EntriesFrom(m, lo) - {k}
  {
    NextKeyIsLeast(m, lo, k);
    assert EntriesFrom(m, k as int + 1) == EntriesFrom(m, lo) - {k};
  }

  /** At the end of the map no entry is left. */
  lemma EntriesFromEnd(m: map<FormId, Item>, lo: int)
    requires NextKey(m, lo) == None
    ensures EntriesFrom(m, lo) == map[]
  {
    NextKeyIsLeast(m, lo, 0);
    assert EntriesFrom(m, lo).Keys == {};
  }

  /** The values not yet reached lose the value of the entry the iterator passes. */
  lemma EntriesBagNext(m: map<FormId, Item>, lo: int, k: FormId)
    requires NextKey(m, lo) == Some(k)
    ensures ValueBag(EntriesFrom(m, lo)) == ValueBag(EntriesFrom(m, k as int + 1)) + multiset{m[k]}
  {
    EntriesFromNext(m, lo, k);
    ValueBagRemove(EntriesFrom(m, lo), k);
  }

  /** Adding an entry under a free key adds exactly its value. */
  lemma ValueBagInsert(m: map<FormId, Item>, k: FormId, v: Item)
    requires k !in m
    ensures ValueBag(m[k := v]) == ValueBag(m) + multiset{v}
  {
    assert m[k := v] - {k} == m;
    ValueBagRemove(m[k := v], k);
  }

  /** Regrouping four multisets, for an erased entry. */
  lemma BagRegroupErased(a: multiset<Item>, g: multiset<Item>, v: multiset<Item>, e: multiset<Item>)
    ensures a + (g + v) + e == a + g + (e + v)
  {
  }

  /** Regrouping four multisets, for a placed entry. */
  lemma BagRegroupPlaced(a: multiset<Item>, g: multiset<Item>, v: multiset<Item>, e: multiset<Item>)
    ensures (a + v) + g + e == a + g + (e + v)
  {
  }

  /** The induction step of `ResolveOnceFromConservesValues` for an entry that is erased. */
  lemma ResolveOnceErasedStep(src: map<FormId, Item>, lo: nat, k: FormId, acc: map<FormId, Item>,
                              gone: multiset<Item>, resolve: FormId -> FormId)
    requires lo <= KeyLimit
    requires NextKey(src, lo) == Some(k)
    requires !Survives(k, resolve) || resolve(k) in acc
    requires var o := ResolveOnceFrom(src, k as nat + 1, acc, gone + multiset{src[k]}, resolve);
             ValueBag(o.cnt) + o.erased == ValueBag(acc) + (gone + multiset{src[k]}) + ValueBag(EntriesFrom(src, k as nat + 1))
    ensures var o := ResolveOnceFrom(src, lo, acc, gone, resolve);
            ValueBag(o.cnt) + o.erased == ValueBag(acc) + gone + ValueBag(EntriesFrom(src, lo))
  {
    ResolveOnceUnfold(src, lo, k, acc, gone, resolve);
    EntriesBagNext(src, lo, k);
    BagRegroupErased(ValueBag(acc), gone, multiset{src[k]}, ValueBag(EntriesFrom(src, k as nat + 1)));
  }

  /** The induction step of `ResolveOnceFromConservesValues` for an entry that is placed. */
  lemma ResolveOncePlacedStep(src: map<FormId, Item>, lo: nat, k: FormId, acc: map<FormId, Item>,
                              gone: multiset<Item>, resolve: FormId -> FormId)
    requires lo <= KeyLimit
    requires NextKey(src, lo) == Some(k)
    requires Survives(k, resolve) && resolve(k) !in acc
    requires var o := ResolveOnceFrom(src, k as nat + 1, acc[resolve(k) := src[k]], gone, resolve);
             ValueBag(o.cnt) + o.erased == ValueBag(acc[resolve(k) := src[k]]) + gone + ValueBag(EntriesFrom(src, k as nat + 1))
    ensures var o := ResolveOnceFrom(src, lo, acc, gone, resolve);
            ValueBag(o.cnt) + o.erased == ValueBag(acc) + gone + ValueBag(EntriesFrom(src, lo))
  {
    ResolveOnceUnfold(src, lo, k, acc, gone, resolve);
    EntriesBagNext(src, lo, k);
    ValueBagInsert(acc, resolve(k), src[k]);
    BagRegroupPlaced(ValueBag(acc), gone, multiset{src[k]}, ValueBag(EntriesFrom(src, k as nat + 1)));
  }

  /** The base case of `ResolveOnceFromConservesValues`: at the end, nothing is left to place. */
  lemma ResolveOnceEndStep(src: map<FormId, Item>, lo: nat, acc: map<FormId, Item>, gone: multiset<Item>,
                           resolve: FormId -> FormId)
    requires lo <= KeyLimit
    requires NextKey(src, lo) == None
    ensures var o := ResolveOnceFrom(src, lo, acc, gone, resolve);
            ValueBag(o.cnt) + o.erased == ValueBag(acc) + gone + ValueBag(EntriesFrom(src, lo))
  {
    ResolveOnceAtEnd(src, lo, acc, gone, resolve);
    EntriesFromEnd(src, lo);
  }

  /** What was placed plus what was erased is what there was, from any iterator position. */
  lemma ResolveOnceFromConservesValues(src: map<FormId, Item>, lo: nat, acc: map<FormId, Item>, gone: multiset<Item>,
                                       resolve: FormId -> FormId)
    requires lo <= KeyLimit
    ensures ValueBag(ResolveOnceFrom(src, lo, acc, gone, resolve).cnt) + ResolveOnceFrom(src, lo, acc, gone, resolve).erased
            == ValueBag(acc) + gone + ValueBag(EntriesFrom(src, lo))
    decreases KeyLimit - lo
  {
    var next := NextKey(src, lo);
    if next.Some? {
      var k := next.value;
      if !Survives(k, resolve) || resolve(k) in acc {
        ResolveOnceFromConservesValues(src, k as nat + 1, acc, gone + multiset{src[k]}, resolve);
        ResolveOnceErasedStep(src, lo, k, acc, gone, resolve);
      } else {
        ResolveOnceFromConservesValues(src, k as nat + 1, acc[resolve(k) := src[k]], gone, resolve);
        ResolveOncePlacedStep(src, lo, k, acc, gone, resolve);
      }
    } else {
      ResolveOnceEndStep(src, lo, acc, gone, resolve);
    }
  }

  /** Resolving once also never invents a value and never grows the map. */
  lemma ResolvedOnceNeverInventsValues(m: map<FormId, Item>, resolve: FormId -> FormId)
    ensures ValueBag(ResolvedOnce(m, resolve).cnt) + ResolvedOnce(m, resolve).erased == ValueBag(m)
    ensures |ResolvedOnce(m, resolve).cnt| <= |m|
  {
    ResolveOnceFromConservesValues(m, 0, map[], multiset{}, resolve);
    assert EntriesFrom(m, 0) == m;
    assert ValueBag(map[]) == multiset{};
    ValueBagSize(m);
    ValueBagSize(ResolvedOnce(m, resolve).cnt);
  }

  /** The ids the surviving entries from `lo` on resolve to. */
  ghost function Targets(src: map<FormId, Item>, lo: int, resolve: FormId -> FormId): set<FormId>
  {
    set i | i in src && lo <= i as int && Survives(i, resolve) :: resolve(i)
  }

  /** Passing the entry the iterator stands on removes its target, if it has one. */
  lemma TargetsNext(src: map<FormId, Item>, lo: int, k: FormId, resolve: FormId -> FormId)
    requires NextKey(src, lo) == Some(k)
    ensures Survives(k, resolve) ==> Targets(src, lo, resolve) == Targets(src, k as int + 1, resolve) + {resolve(k)}
    ensures !Survives(k, resolve) ==> Targets(src, lo, resolve) == Targets(src, k as int + 1, resolve)
  {
    NextKeyIsLeast(src, lo, k);
    var here, later := Targets(src, lo, resolve), Targets(src, k as int + 1, resolve);
    forall x | x in here
      ensures x in later || (Survives(k, resolve) && x == resolve(k))
    {
      var i :| i in src && lo <= i as int && Survives(i, resolve) && resolve(i) == x;
      if i != k {
        assert x in later;
      }
    }
    forall x | x in later
      ensures x in here
    {
      var i :| i in src && k as int + 1 <= i as int && Survives(i, resolve) && resolve(i) == x;
    }
    if Survives(k, resolve) {
      assert resolve(k) in here;
    }
  }

  /** At the end of the map no target is left. */
  lemma TargetsEnd(src: map<FormId, Item>, lo: int, resolve: FormId -> FormId)
    requires NextKey(src, lo) == None
    ensures Targets(src, lo, resolve) == {}
  {
    NextKeyIsLeast(src, lo, 0);
  }

  /** An entry already placed is never overwritten: the first entry to claim an id keeps it. */
  lemma ResolveOnceKeepsPlaced(src: map<FormId, Item>, lo: nat, acc: map<FormId, Item>, gone: multiset<Item>,
                               resolve: FormId -> FormId)
    requires lo <= KeyLimit
    ensures var o := ResolveOnceFrom(src, lo, acc, gone, resolve);
            forall j :: j in acc ==> j in o.cnt && o.cnt[j] == acc[j]
    decreases KeyLimit - lo
  {
    var next := NextKey(src, lo);
    if next.Some? {
      var k := next.value;
      ResolveOnceUnfold(src, lo, k, acc, gone, resolve);
      if !Survives(k, resolve) || resolve(k) in acc {
        ResolveOnceKeepsPlaced(src, k as nat + 1, acc, gone + multiset{src[k]}, resolve);
      } else {
        ResolveOnceKeepsPlaced(src, k as nat + 1, acc[resolve(k) := src[k]], gone, resolve);
      }
    } else {
      ResolveOnceAtEnd(src, lo, acc, gone, resolve);
    }
  }

  /** The final ids are the ones placed before `lo` and the targets from `lo` on. */
  lemma ResolveOnceKeys(src: map<FormId, Item>, lo: nat, acc: map<FormId, Item>, gone: multiset<Item>,
                        resolve: FormId -> FormId)
    requires lo <= KeyLimit
    ensures ResolveOnceFrom(src, lo, acc, gone, resolve).cnt.Keys == acc.Keys + Targets(src, lo, resolve)
    decreases KeyLimit - lo
  {
    var next := NextKey(src, lo);
    if next.Some? {
      var k := next.value;
      ResolveOnceUnfold(src, lo, k, acc, gone, resolve);
      TargetsNext(src, lo, k, resolve);
      if !Survives(k, resolve) || resolve(k) in acc {
        ResolveOnceKeys(src, k as nat + 1, acc, gone + multiset{src[k]}, resolve);
      } else {
        ResolveOnceKeys(src, k as nat + 1, acc[resolve(k) := src[k]], gone, resolve);
      }
    } else {
      ResolveOnceAtEnd(src, lo, acc, gone, resolve);
      TargetsEnd(src, lo, resolve);
    }
  }

  /** No two saved keys resolve to the same surviving id. */
  ghost predicate InjectiveOn(keys: set<FormId>, resolve: FormId -> FormId)
  {
    forall i, j :: i in keys && j in keys && i != j && Survives(i, resolve) && Survives(j, resolve) ==> resolve(i) != resolve(j)
  }

  /**
   * When no two saved keys share a target and no target is taken yet, every
   * surviving entry from `lo` on ends under its resolved id.
   */
  lemma ResolveOncePlacesSurvivors(src: map<FormId, Item>, lo: nat, acc: map<FormId, Item>, gone: multiset<Item>,
                                   resolve: FormId -> FormId)
    requires lo <= KeyLimit
    requires InjectiveOn(src.Keys, resolve)
    requires forall i :: i in src && lo <= i as int && Survives(i, resolve) ==> resolve(i) !in acc
    ensures var o := ResolveOnceFrom(src, lo, acc, gone, resolve);
            forall i :: i in src && lo <= i as int && Survives(i, resolve) ==> resolve(i) in o.cnt && o.cnt[resolve(i)] == src[i]
    decreases KeyLimit - lo
  {
    var next := NextKey(src, lo);
    if next.Some? {
      var k := next.value;
      NextKeyIsLeast(src, lo, k);
      ResolveOnceUnfold(src, lo, k, acc, gone, resolve);
      if !Survives(k, resolve) {
        ResolveOncePlacesSurvivors(src, k as nat + 1, acc, gone + multiset{src[k]}, resolve);
      } else {
        var acc' := acc[resolve(k) := src[k]];
        forall i | i in src && k as int + 1 <= i as int && Survives(i, resolve)
          ensures resolve(i) !in acc'
        {
          assert i != k;
        }
        ResolveOncePlacesSurvivors(src, k as nat + 1, acc', gone, resolve);
        ResolveOncePlacedSurvivorStep(src, lo, k, acc', gone, resolve);
      }
    } else {
      NextKeyIsLeast(src, lo, 0);
    }
  }

  /** The induction step of `ResolveOncePlacesSurvivors` for an entry that is placed. */
  lemma ResolveOncePlacedSurvivorStep(src: map<FormId, Item>, lo: nat, k: FormId, acc': map<FormId, Item>,
                                      gone: multiset<Item>, resolve: FormId -> FormId)
    requires lo <= KeyLimit
    requires NextKey(src, lo) == Some(k)
    requires resolve(k) in acc' && acc'[resolve(k)] == src[k]
    requires var o := ResolveOnceFrom(src, k as nat + 1, acc', gone, resolve);
             forall i :: i in src && k as int + 1 <= i as int && Survives(i, resolve) ==> resolve(i) in o.cnt && o.cnt[resolve(i)] == src[i]
    ensures var o := ResolveOnceFrom(src, k as nat + 1, acc', gone, resolve);
            forall i :: i in src && lo <= i as int && Survives(i, resolve) ==> resolve(i) in o.cnt && o.cnt[resolve(i)] == src[i]
  {
    NextKeyIsLeast(src, lo, k);
    ResolveOnceKeepsPlaced(src, k as nat + 1, acc', gone, resolve);
  }

  /**
   * When no two saved keys resolve to the same id, resolving once puts every
   * surviving value under its resolved id, and the map holds nothing else.
   */
  lemma ResolvedOnceMovesEveryValue(m: map<FormId, Item>, resolve: FormId -> FormId)
    requires InjectiveOn(m.Keys, resolve)
    ensures forall k :: k in m && Survives(k, resolve) ==>
              resolve(k) in ResolvedOnce(m, resolve).cnt && ResolvedOnce(m, resolve).cnt[resolve(k)] == m[k]
    ensures ResolvedOnce(m, resolve).cnt.Keys == set k | k in m && Survives(k, resolve) :: resolve(k)
  {
    ResolveOncePlacesSurvivors(m, 0, map[], multiset{}, resolve);
    ResolveOnceKeys(m, 0, map[], multiset{}, resolve);
  }

  /** Resolving once, the value under `a` is placed under `b`. */
  lemma SwappedPluginsFirstPlaced(m: map<FormId, Item>, a: FormId, b: FormId, resolve: FormId -> FormId)
    requires FormZero < a < b && m.Keys == {a, b} && resolve(a) == b
    ensures ResolvedOnce(m, resolve) == ResolveOnceFrom(m, a as nat + 1, map[b := m[a]], multiset{}, resolve)
  {
    assert NextKey(m, 0) == Some(a) by {
      NextKeyIsLeast(m, 0, a);
    }
    ResolveOnceUnfold(m, 0, a, map[], multiset{}, resolve);
    assert map[][b := m[a]] == map[b := m[a]];
  }

  /** Resolving once, the value under `b` is placed under `a`, and the walk ends. */
  lemma SwappedPluginsSecondPlaced(m: map<FormId, Item>, a: FormId, b: FormId, resolve: FormId -> FormId)
    requires FormZero < a < b && m.Keys == {a, b} && resolve(b) == a
    ensures ResolveOnceFrom(m, a as nat + 1, map[b := m[a]], multiset{}, resolve)
            == Outcome(map[b := m[a], a := m[b]], multiset{})
  {
    assert NextKey(m, a as nat + 1) == Some(b) by {
      NextKeyIsLeast(m, a as nat + 1, b);
    }
    ResolveOnceUnfold(m, a as nat + 1, b, map[b := m[a]], multiset{}, resolve);
    assert NextKey(m, b as nat + 1) == None by {
      NextKeyIsLeast(m, b as nat + 1, a);
    }
    ResolveOnceAtEnd(m, b as nat + 1, map[b := m[a], a := m[b]], multiset{}, resolve);
  }

  /** Resolving once sends the values of two swapped plugins to each other's ids. */
  lemma SwappedPluginsSwappedWhenResolvedOnce(m: map<FormId, Item>, a: FormId, b: FormId, resolve: FormId -> FormId)
    requires FormZero < a < b && m.Keys == {a, b}
    requires resolve(a) == b && resolve(b) == a
    ensures ResolvedOnce(m, resolve) == Outcome(map[b := m[a], a := m[b]], multiset{})
  {
    SwappedPluginsFirstPlaced(m, a, b, resolve);
    SwappedPluginsSecondPlaced(m, a, b, resolve);
  }

  /** Resolving once, the entry under `b`, whose id resolves to FormZero, is erased, and the walk ends. */
  lemma RemovedSlotErased(m: map<FormId, Item>, a: FormId, b: FormId, resolve: FormId -> FormId)
    requires FormZero < a < b && m.Keys == {a, b} && resolve(b) == FormZero
    ensures ResolveOnceFrom(m, a as nat + 1, map[b := m[a]], multiset{}, resolve)
            == Outcome(map[b := m[a]], multiset{m[b]})
  {
    assert NextKey(m, a as nat + 1) == Some(b) by {
      NextKeyIsLeast(m, a as nat + 1, b);
    }
    ResolveOnceUnfold(m, a as nat + 1, b, map[b := m[a]], multiset{}, resolve);
    assert multiset{} + multiset{m[b]} == multiset{m[b]};
    PairAtEnd(m, a, b);
    ResolveOnceAtEnd(m, b as nat + 1, map[b := m[a]], multiset{m[b]}, resolve);
  }

  /**
   * Resolving once, a plugin that moved into the load slot of a removed one keeps
   * its value under the new id, and the removed plugin's value is erased.
   */
  lemma MovedIntoRemovedSlotResolvedOnce(m: map<FormId, Item>, a: FormId, b: FormId, resolve: FormId -> FormId)
    requires FormZero < a < b && m.Keys == {a, b}
    requires resolve(a) == b && resolve(b) == FormZero
    ensures ResolvedOnce(m, resolve) == Outcome(map[b := m[a]], multiset{m[b]})
  {
    SwappedPluginsFirstPlaced(m, a, b, resolve);
    RemovedSlotErased(m, a, b, resolve);
  }

  /** Resolving once moves the entry under `a` to `b` and leaves it there. */
  lemma MovedEntryResolvedOnce(m: map<FormId, Item>, a: FormId, b: FormId, resolve: FormId -> FormId)
    requires a < b && m.Keys == {a}
    requires resolve(a) == b
    ensures ResolvedOnce(m, resolve) == Outcome(map[b := m[a]], multiset{})
  {
    assert NextKey(m, 0) == Some(a) by {
      NextKeyIsLeast(m, 0, a);
    }
    ResolveOnceUnfold(m, 0, a, map[], multiset{}, resolve);
    assert map[][b := m[a]] == map[b := m[a]];
    assert NextKey(m, a as nat + 1) == None by {
      NextKeyIsLeast(m, a as nat + 1, a);
    }
    ResolveOnceAtEnd(m, a as nat + 1, map[b := m[a]], multiset{}, resolve);
  }

  // ---------------------------------------------------------------------------
  // The form map itself

  /** A map from FormId to item, updated in place after a load. */
  class FormMap {
    var cnt: map<FormId, Item>

    constructor (entries: map<FormId, Item>)
      ensures cnt == entries
    {
      cnt := entries;
    }

    /** The smallest key at or above `lo`, where the iterator stands. */
    static method LeastKeyFrom(m: map<FormId, Item>, lo: nat, above: set<FormId>) returns (k: FormId)
      requires above == KeysFrom(m, lo) && above != {}
      ensures NextKey(m, lo) == Some(k)
    {
      ghost var x :| x in above;
      LeastExists(above, x);
      k :| k in above && forall j :: j in above ==> k <= j;
      assert forall j :: j in m && lo <= j as int ==> j in above;
      NextKeyIsLeast(m, lo, k);
    }

    /**
     * One turn of the `u_onLoaded` loop: the entry the iterator stands on goes
     * through `Step`, and the iterator moves past its old key. What the rest of
     * the loop does is unchanged by the turn.
     */
    static method VisitEntry(m: map<FormId, Item>, lo: nat, above: set<FormId>, ghost gone: multiset<Item>,
                             resolve: FormId -> FormId)
      returns (m': map<FormId, Item>, lo': nat, above': set<FormId>, ghost gone': multiset<Item>, ghost k: FormId)
      requires lo <= KeyLimit && above == KeysFrom(m, lo) && above != {}
      ensures NextKey(m, lo) == Some(k) && lo' == k as nat + 1
      ensures m' == Step(m, k, resolve) && gone' == gone + StepErased(m, k, resolve)
      ensures lo < lo' <= KeyLimit
      ensures above' == KeysFrom(m', lo')
      ensures Run(m', lo', gone', resolve) == Run(m, lo, gone, resolve)
    {
      var oldKey := LeastKeyFrom(m, lo, above);
      RunUnfold(m, lo, oldKey, gone, resolve);
      gone' := gone + StepErased(m, oldKey, resolve);
      m' := Step(m, oldKey, resolve);
      lo' := oldKey as nat + 1;
      above' := KeysFrom(m', lo');
      k := oldKey;
    }

    /**
     * `u_onLoaded`: walk the live map in ascending key order and apply the keep,
     * erase, swap and move rules to each entry met; `erased` collects the values
     * of erased entries.
     */
    method OnLoaded(resolve: FormId -> FormId) returns (ghost erased: multiset<Item>)
      modifies this
      ensures Outcome(cnt, erased) == OnLoadedSpec(old(cnt), resolve)
    {
      ghost var start := cnt;
      erased := multiset{};
      var m := cnt;
      var lo: nat := 0;
      var above := KeysFrom(m, lo);
      while above != {}
        invariant lo <= KeyLimit
        invariant above == KeysFrom(m, lo)
        invariant OnLoadedSpec(start, resolve) == Run(m, lo, erased, resolve)
        decreases KeyLimit - lo
      {
        ghost var k;
        m, lo, above, erased, k := VisitEntry(m, lo, above, erased, resolve);
      }
      assert NextKey(m, lo) == None by {
        forall j | j in m
          ensures j as int < lo
        {
          assert j !in above;
        }
        NextKeyIsLeast(m, lo, 0);
      }
      RunAtEnd(m, lo, erased, resolve);
      cnt := m;
    }

    /** The fix-up with each saved key resolved exactly once, over a snapshot of the loaded map. */
    method OnLoadedResolvedOnce(resolve: FormId -> FormId) returns (ghost erased: multiset<Item>)
      modifies this
      ensures Outcome(cnt, erased) == ResolvedOnce(old(cnt), resolve)
      ensures ValueBag(cnt) + erased == ValueBag(old(cnt))
      ensures |cnt| <= |old(cnt)|
      ensures InjectiveOn(old(cnt).Keys, resolve) ==>
                forall k :: k in old(cnt) && Survives(k, resolve) ==> resolve(k) in cnt && cnt[resolve(k)] == old(cnt)[k]
    {
      var saved := cnt;
      var acc: map<FormId, Item> := map[];
      erased := multiset{};
      var lo: nat := 0;
      var above := KeysFrom(saved, lo);
      while above != {}
        invariant lo <= KeyLimit
        invariant above == KeysFrom(saved, lo)
        invariant ResolvedOnce(saved, resolve) == ResolveOnceFrom(saved, lo, acc, erased, resolve)
        decreases KeyLimit - lo
      {
        var oldKey := LeastKeyFrom(saved, lo, above);
        ResolveOnceUnfold(saved, lo, oldKey, acc, erased, resolve);
        var newKey := resolve(oldKey);
        if !Survives(oldKey, resolve) || newKey in acc {
          erased := erased + multiset{saved[oldKey]};
        } else {
          acc := acc[newKey := saved[oldKey]];
        }
        lo := oldKey as nat + 1;
        above := KeysFrom(saved, lo);
      }
      assert NextKey(saved, lo) == None by {
        forall j | j in saved
          ensures j as int < lo
        {
          assert j !in above;
        }
        NextKeyIsLeast(saved, lo, 0);
      }
      ResolveOnceAtEnd(saved, lo, acc, erased, resolve);
      cnt := acc;
      ResolvedOnceNeverInventsValues(saved, resolve);
      if InjectiveOn(saved.Keys, resolve) {
        ResolvedOnceMovesEveryValue(saved, resolve);
      }
    }
  }
}
