/**
 * The inventory window's slot grid: 80 slots, each empty or holding one
 * item, rewritten in place by adding, removing, sorting, stacking and
 * repairing, and the visibility test of the window's filter bar.
 */
module InventorySystem {
  import opened Wrappers
  import opened Text

  const SLOT_COUNT := 80
  const DEFAULT_MAX_STACK := 100

  /**
   * An inventory item. A `maxStack` or `durability` the item does not have
   * is 0, the value JavaScript's truthiness tests treat like a missing one.
   */
  datatype Item = Item(name: string, kind: string, quality: string, stackable: bool,
                       quantity: int, maxStack: int, durability: int, maxDurability: int)

  type Slots = seq<Option<Item>>

  function Min(a: int, b: int): int { if a <= b then a else b }

  // ---------------------------------------------------------------- filter

  /**
   * Whether a slot stays shown under the type, quality and search filters:
   * an empty slot always does; the search text is lower-cased and an empty
   * one matches everything.
   */
  predicate Visible(slot: Slot, typeFilter: string, qualityFilter: string, search: string)
    ensures slot.None? ==> Visible(slot, typeFilter, qualityFilter, search)
    ensures typeFilter == "all" && qualityFilter == "all" && search == "" ==> Visible(slot, typeFilter, qualityFilter, search)
  {
    match slot
    case None => true
    case Some(item) =>
      var needle := Lower(search);
      !(typeFilter != "all" && item.kind != typeFilter) &&
      !(qualityFilter != "all" && item.quality != qualityFilter) &&
      !(needle != "" && !Contains(Lower(item.name), needle))
  }

  type Slot = Option<Item>

  /** An item is shown exactly when it passes each filter; the empty search is no exception. */
  lemma VisibleIff(item: Item, typeFilter: string, qualityFilter: string, search: string)
    ensures Visible(Some(item), typeFilter, qualityFilter, search) <==>
      (typeFilter == "all" || item.kind == typeFilter) &&
      (qualityFilter == "all" || item.quality == qualityFilter) &&
      Contains(Lower(item.name), Lower(search))
  {
    ContainsTrivial(Lower(item.name));
  }

  /** Typing more search text never shows a slot that was hidden. */
  lemma LongerSearchHidesMore(slot: Slot, typeFilter: string, qualityFilter: string, a: string, b: string)
    requires Visible(slot, typeFilter, qualityFilter, a + b)
    ensures Visible(slot, typeFilter, qualityFilter, a)
  {
    if slot.Some? && Lower(a) != "" {
      LowerAppend(a, b);
      ContainsPrefixOfSub(Lower(slot.value.name), Lower(a), Lower(b));
    }
  }

  // ---------------------------------------------------------------- add and remove

  /** `slots.findIndex(slot => slot === null)`: the lowest empty slot. */
  function FirstEmpty(s: Slots): (r: Option<nat>)
    ensures r.None? <==> None !in s
    ensures r.Some? ==> r.value < |s| && s[r.value] == None && forall j :: 0 <= j < r.value ==> s[j].Some?
  {
    if s == [] then None
    else if s[0] == None then Some(0)
    else match FirstEmpty(s[1..])
      case None => None
      case Some(k) => Some(k + 1)
  }

  /** The slots after `addItem(item)`. */
  function Added(s: Slots, item: Item): Slots
  {
    match FirstEmpty(s)
    case None => s
    case Some(k) => s[k := Some(item)]
  }

  /** `slots[slotIndex]`, where an index outside the array reads as empty. */
  function SlotAt(s: Slots, i: int): Slot
  {
    if 0 <= i < |s| then s[i] else None
  }

  /** The slots after `removeItem(slotIndex)`. */
  function Removed(s: Slots, i: int): Slots
  {
    if 0 <= i < |s| then s[i := None] else s
  }

  /** Adding fills the lowest empty slot; removing from that slot hands the item back and restores the grid. */
  lemma AddThenRemoveRestores(s: Slots, item: Item)
    requires None in s
    ensures var k := FirstEmpty(s).value;
      SlotAt(Added(s, item), k) == Some(item) && Removed(Added(s, item), k) == s
  {
    var k := FirstEmpty(s).value;
    assert Added(s, item)[k := None] == s;
  }

  /** A full grid is left alone, and an added item is found in the grid afterwards. */
  lemma AddedContainsItem(s: Slots, item: Item)
    ensures None !in s ==> Added(s, item) == s
    ensures None in s ==> Some(item) in Added(s, item) && |Added(s, item)| == |s|
  {
    if None in s {
      var k := FirstEmpty(s).value;
      assert Added(s, item)[k] == Some(item);
    }
  }

  // ---------------------------------------------------------------- sort order

  const TYPE_ORDER := ["weapons", "armor", "resources", "components", "consumables", "misc"]
  const QUALITY_ORDER := ["poor", "normal", "good", "exceptional", "legendary"]

  /** `order.indexOf(x)`, or the length of `order` when `x` is absent. */
  function IndexOf(order: seq<string>, x: string): (r: nat)
    ensures r <= |order|
    ensures r < |order| <==> x in order
    ensures r < |order| ==> order[r] == x
  {
    if order == [] then 0 else if order[0] == x then 0 else 1 + IndexOf(order[1..], x)
  }

  /** The comparator's rank: the position in the table, or 999 for a value the table does not list. */
  function Rank(order: seq<string>, x: string): (r: nat)
    requires |order| < 999
    ensures x in order ==> r < |order| && order[r] == x
    ensures x !in order <==> r == 999
  {
    var i := IndexOf(order, x);
    if i < |order| then i else 999
  }

  /** `a.localeCompare(b) <= 0`, taken as the code-point order on names. */
  predicate NameLe(a: string, b: string)
    decreases |a|
  {
    a == [] || (b != [] && (a[0] < b[0] || (a[0] == b[0] && NameLe(a[1..], b[1..]))))
  }

  lemma {:induction false} NameLeTotal(a: string, b: string)
    ensures NameLe(a, b) || NameLe(b, a)
    decreases |a|
  {
    if a != [] && b != [] && a[0] == b[0] {
      NameLeTotal(a[1..], b[1..]);
    }
  }

  lemma {:induction false} NameLeAntisymmetric(a: string, b: string)
    requires NameLe(a, b) && NameLe(b, a)
    ensures a == b
    decreases |a|
  {
    if a != [] {
      NameLeAntisymmetric(a[1..], b[1..]);
      assert a == [a[0]] + a[1..] && b == [b[0]] + b[1..];
    }
  }

  /**
   * The sort comparator returns a value `<= 0`: lower type rank first, then
   * higher quality rank first, then the name order.
   */
  predicate ItemLe(a: Item, b: Item)
  {
    var ta := Rank(TYPE_ORDER, a.kind);
    var tb := Rank(TYPE_ORDER, b.kind);
    var qa := Rank(QUALITY_ORDER, a.quality);
    var qb := Rank(QUALITY_ORDER, b.quality);
    ta < tb || (ta == tb && (qa > qb || (qa == qb && NameLe(a.name, b.name))))
  }

  /** Any two items are ordered one way or the other. */
  lemma ItemLeTotal(a: Item, b: Item)
    ensures ItemLe(a, b) || ItemLe(b, a)
  {
    NameLeTotal(a.name, b.name);
  }

  /** Two items the comparator puts both ways round agree on type rank, quality rank and name. */
  lemma ItemLeTies(a: Item, b: Item)
    requires ItemLe(a, b) && ItemLe(b, a)
    ensures a.name == b.name
    ensures Rank(TYPE_ORDER, a.kind) == Rank(TYPE_ORDER, b.kind)
    ensures Rank(QUALITY_ORDER, a.quality) == Rank(QUALITY_ORDER, b.quality)
  {
    NameLeAntisymmetric(a.name, b.name);
  }

  /** Within a type, an item of a quality the table does not list (rank 999) sorts before every listed quality. */
  lemma UnknownQualitySortsFirst(a: Item, b: Item)
    requires a.kind == b.kind && a.quality !in QUALITY_ORDER && b.quality in QUALITY_ORDER
    ensures ItemLe(a, b) && !ItemLe(b, a)
  {
  }

  /** An item of a type the table does not list sorts after every listed type. */
  lemma UnknownTypeSortsLast(a: Item, b: Item)
    requires a.kind in TYPE_ORDER && b.kind !in TYPE_ORDER
    ensures ItemLe(a, b) && !ItemLe(b, a)
  {
  }

  predicate Sorted(s: seq<Item>)
  {
    forall i :: 0 < i < |s| ==> ItemLe(s[i - 1], s[i])
  }

  /**
   * Inserts `x` before the first element it sorts no later than under
   * `le`, so equal items keep their order.
   */
  function Insert(le: (Item, Item) -> bool, x: Item, s: seq<Item>): (r: seq<Item>)
    ensures |r| == |s| + 1
    ensures multiset(r) == multiset(s) + multiset{x}
    ensures r[0] == x || (s != [] && r[0] == s[0])
  {
    if s == [] then [x]
    else if le(x, s[0]) then [x] + s
    else
      assert s == [s[0]] + s[1..];
      [s[0]] + Insert(le, x, s[1..])
  }

  lemma {:induction false} InsertSorted(x: Item, s: seq<Item>)
    requires Sorted(s)
    ensures Sorted(Insert(ItemLe, x, s))
  {
    if s != [] && !ItemLe(x, s[0]) {
      ItemLeTotal(x, s[0]);
      InsertSorted(x, s[1..]);
      var r := Insert(ItemLe, x, s[1..]);
      assert Insert(ItemLe, x, s) == [s[0]] + r;
      if s[1..] != [] {
        assert r[0] == x || r[0] == s[1];
      }
    }
  }

  /** `items.sort(comparator)`, as a stable insertion sort. */
  function SortItems(s: seq<Item>): (r: seq<Item>)
    ensures |r| == |s| && multiset(r) == multiset(s)
  {
    if s == [] then []
    else
      assert s == [s[0]] + s[1..];
      Insert(ItemLe, s[0], SortItems(s[1..]))
  }

  lemma {:induction false} SortItemsSorted(s: seq<Item>)
    ensures Sorted(SortItems(s))
  {
    if s != [] {
      SortItemsSorted(s[1..]);
      InsertSorted(s[0], SortItems(s[1..]));
    }
  }

  /** `slots.filter(item => item !== null)`: the items in slot order. */
  function Occupied(s: Slots): (r: seq<Item>)
    ensures |r| <= |s|
  {
    if s == [] then [] else Occupied(s[..|s| - 1]) + (if s[|s| - 1].Some? then [s[|s| - 1].value] else [])
  }

  /** Each item occurs among the occupied slots as often as a slot holds it. */
  lemma {:induction false} OccupiedMultiset(s: Slots, x: Item)
    ensures multiset(Occupied(s))[x] == multiset(s)[Some(x)]
    decreases |s|
  {
    if s != [] {
      var init := s[..|s| - 1];
      OccupiedMultiset(init, x);
      assert s == init + [s[|s| - 1]];
    }
  }

  /** `n` slots holding `items` from slot 0 on and empty after them. */
  function Packed(items: seq<Item>, n: nat): (r: Slots)
    requires |items| <= n
    ensures |r| == n
  {
    seq(n, i requires 0 <= i < n => if i < |items| then Some(items[i]) else None)
  }

  /** Slots holding `items` from slot 0 on and nothing after them have exactly `items` as their occupied slots. */
  lemma {:induction false} OccupiedOfPacked(p: Slots, items: seq<Item>)
    requires |items| <= |p|
    requires forall i :: 0 <= i < |p| ==> p[i] == (if i < |items| then Some(items[i]) else None)
    ensures Occupied(p) == items
    decreases |p|
  {
    if p != [] {
      var init := p[..|p| - 1];
      var rest := if |items| == |p| then items[..|p| - 1] else items;
      forall i | 0 <= i < |init|
        ensures init[i] == (if i < |rest| then Some(rest[i]) else None)
      {
        assert init[i] == p[i];
        if i < |rest| {
          assert rest[i] == items[i];
        }
      }
      OccupiedOfPacked(init, rest);
      assert Occupied(p) == Occupied(init) + (if p[|p| - 1].Some? then [p[|p| - 1].value] else []);
      if |items| == |p| {
        assert items == rest + [items[|p| - 1]];
      }
    }
  }

  lemma OccupiedPacked(items: seq<Item>, n: nat)
    requires |items| <= n
    ensures Occupied(Packed(items, n)) == items
  {
    OccupiedOfPacked(Packed(items, n), items);
  }

  /**
   * Sorting keeps every item, orders them by the comparator and packs them
   * into the first slots, with the empty slots after them.
   */
  lemma SortedInventory(s: Slots)
    ensures var r := Packed(SortItems(Occupied(s)), |s|);
      Occupied(r) == SortItems(Occupied(s)) && Sorted(Occupied(r)) &&
      (forall x :: multiset(Occupied(r))[x] == multiset(s)[Some(x)]) &&
      (forall i, j :: 0 <= i < j < |r| && r[i].None? ==> r[j].None?)
  {
    OccupiedPacked(SortItems(Occupied(s)), |s|);
    SortItemsSorted(Occupied(s));
    forall x
      ensures multiset(SortItems(Occupied(s)))[x] == multiset(s)[Some(x)]
    {
      OccupiedMultiset(s, x);
    }
  }

  // ---------------------------------------------------------------- repair

  /** An item whose durability is set and below its maximum is restored to the maximum. */
  function Repaired(slot: Slot): (r: Slot)
    ensures r.None? <==> slot.None?
  {
    match slot
    case None => None
    case Some(item) =>
      if item.durability != 0 && item.durability < item.maxDurability then Some(item.(durability := item.maxDurability))
      else slot
  }

  /**
   * Repair raises durability to the maximum, lowers nothing, changes no
   * other field, and a second repair has nothing left to do.
   */
  lemma RepairedProperties(slot: Slot)
    ensures Repaired(Repaired(slot)) == Repaired(slot)
    ensures slot.Some? ==> var a := slot.value; var b := Repaired(slot).value;
      b == a.(durability := b.durability) && b.durability >= a.durability &&
      (a.durability != 0 ==> b.durability >= a.maxDurability)
  {
  }

  // ---------------------------------------------------------------- stacking

  /** `${item.name}_${item.quality}`: the key grouping stackable items. */
  function StackKey(item: Item): string { item.name + "_" + item.quality }

  /** The key is a plain concatenation, so different name and quality pairs can share it. */
  lemma StackKeyCollides()
    ensures StackKey(Item("a_b", "misc", "c", true, 1, 0, 0, 0)) == StackKey(Item("a", "misc", "b_c", true, 1, 0, 0, 0))
  {
  }

  /** A stackable item recorded with its slot, as the grouping pass pushes `{item, index}`. */
  datatype Entry = Entry(index: nat, item: Item)

  predicate InGroup(slot: Slot, key: string)
  {
    slot.Some? && slot.value.stackable && StackKey(slot.value) == key
  }

  /** The entries of group `key` among the first `n` slots, in slot order. */
  function Members(s: Slots, key: string, n: nat): (r: seq<Entry>)
    requires n <= |s|
    ensures |r| <= n
  {
    if n == 0 then []
    else Members(s, key, n - 1) + (if InGroup(s[n - 1], key) then [Entry(n - 1, s[n - 1].value)] else [])
  }

  /** Every entry records a slot of the first `n` of group `key` and the item in it. */
  predicate EntriesOf(s: Slots, key: string, n: nat, r: seq<Entry>)
  {
    forall j :: 0 <= j < |r| ==> r[j].index < n <= |s| && InGroup(s[r[j].index], key) && s[r[j].index] == Some(r[j].item)
  }

  /** The entries' slots strictly increase. */
  predicate Increasing(r: seq<Entry>)
  {
    forall j, k :: 0 <= j < k < |r| ==> r[j].index < r[k].index
  }

  lemma {:induction false} MembersShape(s: Slots, key: string, n: nat)
    requires n <= |s|
    ensures EntriesOf(s, key, n, Members(s, key, n)) && Increasing(Members(s, key, n))
  {
    if n > 0 {
      MembersShape(s, key, n - 1);
      var m := Members(s, key, n - 1);
      var r := Members(s, key, n);
      if InGroup(s[n - 1], key) {
        var e := Entry(n - 1, s[n - 1].value);
        assert r == m + [e];
        forall j | 0 <= j < |r|
          ensures r[j].index < n <= |s| && InGroup(s[r[j].index], key) && s[r[j].index] == Some(r[j].item)
        {
          if j < |m| {
            assert r[j] == m[j];
            assert m[j].index < n - 1;
          } else {
            assert r[j] == e;
          }
        }
        forall j, k | 0 <= j < k < |r|
          ensures r[j].index < r[k].index
        {
          assert r[j] == m[j];
          if k < |m| {
            assert r[k] == m[k];
          } else {
            assert r[k] == e;
            assert m[j].index < n - 1;
          }
        }
      } else {
        assert r == m;
        assert EntriesOf(s, key, n - 1, m);
      }
    }
  }

  /** The distinct keys of the first `n` slots' stackable items, in order of first occurrence. */
  function Keys(s: Slots, n: nat): (r: seq<string>)
    requires n <= |s|
  {
    if n == 0 then []
    else
      var ks := Keys(s, n - 1);
      var slot := s[n - 1];
      if slot.Some? && slot.value.stackable && StackKey(slot.value) !in ks then ks + [StackKey(slot.value)] else ks
  }

  /** A key is listed exactly when its group is not empty. */
  lemma {:induction false} KeysMembers(s: Slots, n: nat, key: string)
    requires n <= |s|
    ensures key in Keys(s, n) <==> Members(s, key, n) != []
  {
    if n > 0 {
      KeysMembers(s, n - 1, key);
      var slot := s[n - 1];
      var ks := Keys(s, n - 1);
      var m := Members(s, key, n - 1);
      if InGroup(slot, key) {
        assert Members(s, key, n) == m + [Entry(n - 1, slot.value)];
        assert key in Keys(s, n);
      } else {
        assert Members(s, key, n) == m;
        assert Keys(s, n) == ks || (Keys(s, n) == ks + [StackKey(slot.value)] && StackKey(slot.value) != key);
      }
    }
  }

  /** The keys listed are distinct. */
  lemma {:induction false} KeysDistinct(s: Slots, n: nat)
    requires n <= |s|
    ensures forall j, k :: 0 <= j < k < |Keys(s, n)| ==> Keys(s, n)[j] != Keys(s, n)[k]
  {
    if n > 0 {
      KeysDistinct(s, n - 1);
      var ks := Keys(s, n - 1);
      var slot := s[n - 1];
      if slot.Some? && slot.value.stackable && StackKey(slot.value) !in ks {
        var r := ks + [StackKey(slot.value)];
        assert Keys(s, n) == r;
        forall j, k | 0 <= j < k < |r|
          ensures r[j] != r[k]
        {
          assert r[j] == ks[j];
          if k < |ks| {
            assert r[k] == ks[k];
          }
        }
      }
    }
  }

  /** `items.reduce((sum, {item}) => sum + item.quantity, 0)`. */
  function SumQuantity(es: seq<Entry>): int
  {
    if es == [] then 0 else SumQuantity(es[..|es| - 1]) + es[|es| - 1].item.quantity
  }

  /** `maxStack || 100`. */
  function MaxStackOf(item: Item): int
  {
    if item.maxStack != 0 then item.maxStack else DEFAULT_MAX_STACK
  }

  predicate IndicesIn(es: seq<Entry>, n: nat)
  {
    forall j :: 0 <= j < |es| ==> es[j].index < n
  }

  /** `slots[i] = v` on a slot of the grid. */
  function Store(s: Slots, i: nat, v: Slot): (r: Slots)
    ensures |r| == |s|
  {
    if i < |s| then s[i := v] else s
  }

  /** The group's slots from the second on, up to `j`, cleared. */
  function Cleared(s: Slots, es: seq<Entry>, j: nat): (r: Slots)
    requires j <= |es|
    ensures |r| == |s|
  {
    if j <= 1 then s else Store(Cleared(s, es, j - 1), es[j - 1].index, None)
  }

  /** The overflow loop: from the group's `j`-th slot on, copies of `first` holding at most `maxStack` each. */
  function Overflow(s: Slots, first: Item, es: seq<Entry>, j: nat, remaining: int, maxStack: int): (r: Slots)
    ensures |r| == |s|
    decreases |es| - j
  {
    if remaining > 0 && j < |es| then
      var size := Min(remaining, maxStack);
      Overflow(Store(s, es[j].index, Some(first.(quantity := size))), first, es, j + 1, remaining - size, maxStack)
    else s
  }

  /** The first item of a group, holding the group's total up to its maximum stack size. */
  function Merged(es: seq<Entry>): Item
    requires |es| > 0
  {
    es[0].item.(quantity := Min(SumQuantity(es), MaxStackOf(es[0].item)))
  }

  /** Stacking one group: the merged first slot, the others cleared, then the overflow written back into them. */
  function ApplyGroup(s: Slots, es: seq<Entry>): (r: Slots)
    ensures |r| == |s|
  {
    if |es| <= 1 then s
    else
      var first := Merged(es);
      var maxStack := MaxStackOf(es[0].item);
      Overflow(Cleared(Store(s, es[0].index, Some(first)), es, |es|), first, es, 1, SumQuantity(es) - maxStack, maxStack)
  }

  /** The slots after stacking the first `g` groups of `keys`, each group taken from the original slots `orig`. */
  function StackPrefix(orig: Slots, keys: seq<string>, g: nat): (r: Slots)
    requires g <= |keys|
    ensures |r| == |orig|
  {
    if g == 0 then orig else ApplyGroup(StackPrefix(orig, keys, g - 1), Members(orig, keys[g - 1], |orig|))
  }

  /** The slots after `stackItems()`. */
  function Stacked(orig: Slots): Slots
  {
    var keys := Keys(orig, |orig|);
    StackPrefix(orig, keys, |keys|)
  }

  lemma {:induction false} ClearedFrame(s: Slots, es: seq<Entry>, j: nat, i: nat)
    requires j <= |es| && i < |s|
    requires forall k :: 1 <= k < j ==> es[k].index != i
    ensures Cleared(s, es, j)[i] == s[i]
  {
    if j > 1 {
      ClearedFrame(s, es, j - 1, i);
    }
  }

  lemma {:induction false} OverflowFrame(s: Slots, first: Item, es: seq<Entry>, j: nat, remaining: int, maxStack: int, i: nat)
    requires i < |s|
    requires forall k :: j <= k < |es| ==> es[k].index != i
    ensures Overflow(s, first, es, j, remaining, maxStack)[i] == s[i]
    decreases |es| - j
  {
    if remaining > 0 && j < |es| {
      var size := Min(remaining, maxStack);
      OverflowFrame(Store(s, es[j].index, Some(first.(quantity := size))), first, es, j + 1, remaining - size, maxStack, i);
    }
  }

  /** Stacking a group changes only the group's own slots. */
  lemma ApplyGroupFrame(s: Slots, es: seq<Entry>, i: nat)
    requires i < |s|
    requires forall k :: 0 <= k < |es| ==> es[k].index != i
    ensures ApplyGroup(s, es)[i] == s[i]
  {
    if |es| > 1 {
      var first := Merged(es);
      var maxStack := MaxStackOf(es[0].item);
      var s1 := Store(s, es[0].index, Some(first));
      ClearedFrame(s1, es, |es|, i);
      OverflowFrame(Cleared(s1, es, |es|), first, es, 1, SumQuantity(es) - maxStack, maxStack, i);
    }
  }

  /** Within its own group, the first slot ends up holding the merged item. */
  lemma ApplyGroupFirst(s: Slots, es: seq<Entry>)
    requires |es| > 1 && es[0].index < |s|
    requires forall k :: 0 < k < |es| ==> es[0].index < es[k].index
    ensures ApplyGroup(s, es)[es[0].index] == Some(Merged(es))
  {
    var first := Merged(es);
    var maxStack := MaxStackOf(es[0].item);
    var s1 := Store(s, es[0].index, Some(first));
    ClearedFrame(s1, es, |es|, es[0].index);
    OverflowFrame(Cleared(s1, es, |es|), first, es, 1, SumQuantity(es) - maxStack, maxStack, es[0].index);
  }

  /** Stacking the group of `key` cannot move slot `i`: the slot is not in the group, or the group is a single slot. */
  predicate LeavesSlot(orig: Slots, key: string, i: nat)
    requires i < |orig|
  {
    !InGroup(orig[i], key) || |Members(orig, key, |orig|)| <= 1
  }

  lemma ApplyGroupOther(s: Slots, orig: Slots, key: string, i: nat)
    requires |s| == |orig| && i < |orig| && LeavesSlot(orig, key, i)
    ensures ApplyGroup(s, Members(orig, key, |orig|))[i] == s[i]
  {
    var es := Members(orig, key, |orig|);
    if |es| > 1 {
      MembersShape(orig, key, |orig|);
      ApplyGroupFrame(s, es, i);
    }
  }

  /** Groups of other keys never touch slot `i`. */
  lemma StackPrefixOutside(orig: Slots, keys: seq<string>, g: nat, h: nat, i: nat)
    requires g <= h <= |keys| && i < |orig|
    requires forall k :: g <= k < h ==> LeavesSlot(orig, keys[k], i)
    ensures StackPrefix(orig, keys, h)[i] == StackPrefix(orig, keys, g)[i]
  {
    var trace := seq(h + 1, k requires 0 <= k <= h => StackPrefix(orig, keys, k)[i]);
    forall k | g <= k < h
      ensures trace[k + 1] == trace[k]
    {
      assert trace[k] == StackPrefix(orig, keys, k)[i];
      assert trace[k + 1] == StackPrefix(orig, keys, k + 1)[i];
      StackStepOther(orig, keys, k + 1, i);
    }
    Steady(trace, g, h);
  }

  /** A trace that never changes between `g` and `h` ends where it started. */
  lemma {:induction false} Steady(trace: seq<Slot>, g: nat, h: nat)
    requires g <= h < |trace|
    requires forall k :: g <= k < h ==> trace[k + 1] == trace[k]
    ensures trace[h] == trace[g]
    decreases h - g
  {
    if g < h {
      Steady(trace, g, h - 1);
    }
  }

  /** The group of a key other than the slot's own leaves the slot as it is. */
  lemma StackStepOther(orig: Slots, keys: seq<string>, h: nat, i: nat)
    requires 0 < h <= |keys| && i < |orig| && LeavesSlot(orig, keys[h - 1], i)
    ensures StackPrefix(orig, keys, h)[i] == StackPrefix(orig, keys, h - 1)[i]
  {
    ApplyGroupOther(StackPrefix(orig, keys, h - 1), orig, keys[h - 1], i);
  }

  /** A slot that is empty, not stackable, or the only one of its key, is left exactly as it was. */
  lemma StackedKeepsUngrouped(orig: Slots, i: nat)
    requires i < |orig|
    requires orig[i].None? || !orig[i].value.stackable || |Members(orig, StackKey(orig[i].value), |orig|)| == 1
    ensures Stacked(orig)[i] == orig[i]
  {
    var keys := Keys(orig, |orig|);
    StackPrefixOutside(orig, keys, 0, |keys|, i);
  }

  /**
   * The first slot of a group of several stackable items with one key ends
   * up holding that item with the group's total quantity, capped at its
   * maximum stack size.
   */
  lemma StackedFirstSlot(orig: Slots, key: string)
    requires |Members(orig, key, |orig|)| > 1
    ensures var es := Members(orig, key, |orig|);
      es[0].index < |orig| && Stacked(orig)[es[0].index] == Some(Merged(es))
  {
    var es := Members(orig, key, |orig|);
    var keys := Keys(orig, |orig|);
    MembersShape(orig, key, |orig|);
    var g := KeyPosition(orig, key);
    var i := es[0].index;
    OtherKeysSkip(orig, keys, key, 0, g, i);
    assert StackPrefix(orig, keys, g + 1) == ApplyGroup(StackPrefix(orig, keys, g), es);
    ApplyGroupFirst(StackPrefix(orig, keys, g), es);
    OtherKeysSkip(orig, keys, key, g + 1, |keys|, i);
  }

  /** A key with members appears exactly once among the keys. */
  lemma KeyPosition(orig: Slots, key: string) returns (g: nat)
    requires Members(orig, key, |orig|) != []
    ensures g < |Keys(orig, |orig|)| && Keys(orig, |orig|)[g] == key
    ensures forall k :: 0 <= k < |Keys(orig, |orig|)| && k != g ==> Keys(orig, |orig|)[k] != key
  {
    KeysMembers(orig, |orig|, key);
    KeysDistinct(orig, |orig|);
    var keys := Keys(orig, |orig|);
    g :| 0 <= g < |keys| && keys[g] == key;
  }

  /** The groups of keys other than the slot's own leave the slot as it is. */
  lemma OtherKeysSkip(orig: Slots, keys: seq<string>, key: string, g: nat, h: nat, i: nat)
    requires g <= h <= |keys| && i < |orig| && InGroup(orig[i], key)
    requires forall k :: g <= k < h ==> keys[k] != key
    ensures StackPrefix(orig, keys, h)[i] == StackPrefix(orig, keys, g)[i]
  {
    StackPrefixOutside(orig, keys, g, h, i);
  }

  /**
   * What the overflow loop leaves in the group's `k`-th slot (`k >= 1`): a
   * copy of the merged item holding what is left after `k` full stacks, at
   * most one stack, or nothing once the total is used up.
   */
  function OverflowSlot(es: seq<Entry>, k: nat): (r: Slot)
    requires 0 < k < |es|
    ensures r.None? || (r.value == Merged(es).(quantity := r.value.quantity) && r.value.quantity <= MaxStackOf(es[0].item))
  {
    var maxStack := MaxStackOf(es[0].item);
    var rest := SumQuantity(es) - k * maxStack;
    if SumQuantity(es) - maxStack > 0 && rest > 0 then Some(Merged(es).(quantity := Min(rest, maxStack))) else None
  }

  lemma {:induction false} ClearedAt(s: Slots, es: seq<Entry>, j: nat, k: nat)
    requires j <= |es| && 1 <= k < j && es[k].index < |s|
    requires forall m :: k < m < j ==> es[m].index != es[k].index
    ensures Cleared(s, es, j)[es[k].index] == None
  {
    if k < j - 1 {
      ClearedAt(s, es, j - 1, k);
    }
  }

  /** The overflow loop, entered at the group's `j`-th slot with `remaining` left, in closed form at a later slot. */
  lemma {:induction false} OverflowAt(s: Slots, first: Item, es: seq<Entry>, j: nat, remaining: int, maxStack: int, k: nat)
    requires j <= k < |es| && es[k].index < |s|
    requires forall m :: j <= m < |es| && m != k ==> es[m].index != es[k].index
    ensures Overflow(s, first, es, j, remaining, maxStack)[es[k].index] ==
      if remaining > 0 && remaining - (k - j) * maxStack > 0
      then Some(first.(quantity := Min(remaining - (k - j) * maxStack, maxStack)))
      else s[es[k].index]
    decreases |es| - j
  {
    var i := es[k].index;
    if remaining > 0 {
      var size := Min(remaining, maxStack);
      var s' := Store(s, es[j].index, Some(first.(quantity := size)));
      assert Overflow(s, first, es, j, remaining, maxStack) == Overflow(s', first, es, j + 1, remaining - size, maxStack);
      if k == j {
        OverflowFrame(s', first, es, j + 1, remaining - size, maxStack, i);
      } else {
        OverflowAt(s', first, es, j + 1, remaining - size, maxStack, k);
        assert s'[i] == s[i];
        var p := (k - (j + 1)) * maxStack;
        var q := (k - j) * maxStack;
        assert q == p + maxStack;
        if maxStack > 0 {
          MulMonotone(k - (j + 1), maxStack);
        }
        if size == maxStack {
          assert remaining - size - p == remaining - q;
        } else {
          assert size == remaining && remaining - q < 0;
        }
      }
    }
  }

  lemma MulMonotone(a: int, b: int)
    requires a >= 0 && b > 0
    ensures a * b >= 0
  {
  }

  /** Within its own group, every slot after the first ends up holding the overflow. */
  lemma ApplyGroupLater(s: Slots, es: seq<Entry>, k: nat)
    requires 0 < k < |es| && es[k].index < |s| && Increasing(es)
    ensures ApplyGroup(s, es)[es[k].index] == OverflowSlot(es, k)
  {
    var first := Merged(es);
    var maxStack := MaxStackOf(es[0].item);
    var s1 := Store(s, es[0].index, Some(first));
    ClearedAt(s1, es, |es|, k);
    OverflowAt(Cleared(s1, es, |es|), first, es, 1, SumQuantity(es) - maxStack, maxStack, k);
    assert (k - 1) * maxStack + maxStack == k * maxStack;
  }

  /**
   * Every later slot of a group of several stackable items with one key ends
   * up holding the overflow: a copy of the merged item with at most one
   * stack, or nothing.
   */
  lemma StackedLaterSlots(orig: Slots, key: string, k: nat)
    requires 0 < k < |Members(orig, key, |orig|)|
    ensures var es := Members(orig, key, |orig|);
      es[k].index < |orig| && Stacked(orig)[es[k].index] == OverflowSlot(es, k)
  {
    var es := Members(orig, key, |orig|);
    var keys := Keys(orig, |orig|);
    MembersShape(orig, key, |orig|);
    var g := KeyPosition(orig, key);
    var i := es[k].index;
    assert StackPrefix(orig, keys, g + 1) == ApplyGroup(StackPrefix(orig, keys, g), es);
    ApplyGroupLater(StackPrefix(orig, keys, g), es, k);
    OtherKeysSkip(orig, keys, key, g + 1, |keys|, i);
  }

  /** The overflow fills the group's later slots in order: once one is left empty, so are all after it. */
  lemma OverflowPrefix(es: seq<Entry>, k: nat, k': nat)
    requires 0 < k < k' < |es| && OverflowSlot(es, k).None?
    ensures OverflowSlot(es, k').None?
  {
    var maxStack := MaxStackOf(es[0].item);
    assert k' * maxStack == k * maxStack + (k' - k) * maxStack;
    if maxStack > 0 {
      MulMonotone(k' - k, maxStack);
    } else {
      MulMonotone(k - 1, -maxStack);
      assert k * maxStack == (k - 1) * maxStack + maxStack;
    }
  }

  /** The quantity a slot holds, 0 for an empty one. */
  function QuantityIn(slot: Slot): int
  {
    if slot.Some? then slot.value.quantity else 0
  }

  /** The quantities held in the slots of the group's first `n` entries. */
  function SlotsTotal(s: Slots, es: seq<Entry>, n: nat): int
    requires n <= |es| && IndicesIn(es, |s|)
  {
    if n == 0 then 0 else SlotsTotal(s, es, n - 1) + QuantityIn(s[es[n - 1].index])
  }

  lemma MinStep(total: int, maxStack: int, n: nat)
    requires maxStack > 0 && n >= 1
    ensures Min(total, n * maxStack) + (if total - maxStack > 0 && total - n * maxStack > 0 then Min(total - n * maxStack, maxStack) else 0)
      == Min(total, (n + 1) * maxStack)
  {
    assert (n + 1) * maxStack == n * maxStack + maxStack;
    MulMonotone(n - 1, maxStack);
    assert n * maxStack == (n - 1) * maxStack + maxStack;
  }

  /**
   * With a positive maximum stack size, stacking keeps a group's total in
   * its slots, except what exceeds one stack per slot.
   */
  lemma {:induction false} StackedGroupTotal(orig: Slots, key: string, n: nat)
    requires 0 < n <= |Members(orig, key, |orig|)|
    requires MaxStackOf(Members(orig, key, |orig|)[0].item) > 0
    ensures IndicesIn(Members(orig, key, |orig|), |Stacked(orig)|)
    ensures var es := Members(orig, key, |orig|);
      |es| > 1 ==> SlotsTotal(Stacked(orig), es, n) == Min(SumQuantity(es), n * MaxStackOf(es[0].item))
  {
    var es := Members(orig, key, |orig|);
    MembersShape(orig, key, |orig|);
    if |es| > 1 {
      if n == 1 {
        StackedFirstSlot(orig, key);
      } else {
        StackedGroupTotal(orig, key, n - 1);
        StackedLaterSlots(orig, key, n - 1);
        MinStep(SumQuantity(es), MaxStackOf(es[0].item), n - 1);
      }
    }
  }

  // ---------------------------------------------------------------- the grid

  /** `this.inventory.slots`: a fixed array of 80 slots. */
  class Inventory {
    var slots: array<Slot>

    predicate Valid()
      reads this
    {
      slots.Length == SLOT_COUNT
    }

    /** `Array(80).fill(null)`. */
    constructor ()
      ensures Valid() && fresh(slots)
      ensures forall i :: 0 <= i < SLOT_COUNT ==> slots[i] == None
    {
      slots := new Slot[SLOT_COUNT](_ => None);
    }

    /** `addItem(item)`: true after filling the lowest empty slot, false on a full grid. */
    method AddItem(item: Item) returns (added: bool)
      requires Valid()
      modifies slots
      ensures added <==> None in old(slots[..])
      ensures slots[..] == Added(old(slots[..]), item)
    {
      var k := FirstEmpty(slots[..]);
      if k.Some? {
        slots[k.value] := Some(item);
        added := true;
      } else {
        added := false;
      }
    }

    /** `removeItem(slotIndex)`: the item of an occupied slot, which is cleared; null otherwise. */
    method RemoveItem(slotIndex: int) returns (item: Slot)
      requires Valid()
      modifies slots
      ensures item == SlotAt(old(slots[..]), slotIndex)
      ensures slots[..] == Removed(old(slots[..]), slotIndex)
    {
      if 0 <= slotIndex < slots.Length && slots[slotIndex].Some? {
        item := slots[slotIndex];
        slots[slotIndex] := None;
      } else {
        item := None;
      }
    }

    /** `sortInventory()`: collect the items, sort them, clear the grid and refill it from slot 0. */
    method SortInventory()
      requires Valid()
      modifies slots
      ensures slots[..] == Packed(SortItems(Occupied(old(slots[..]))), SLOT_COUNT)
    {
      var items := CollectItems();
      var sorted := SortItems(items);
      Refill(sorted);
    }

    /** The items of the occupied slots, in slot order. */
    method CollectItems() returns (items: seq<Item>)
      requires Valid()
      ensures items == Occupied(slots[..])
    {
      items := [];
      for i := 0 to slots.Length
        invariant items == Occupied(slots[..i])
      {
        assert slots[..i + 1] == slots[..i] + [slots[i]];
        assert slots[..i + 1][..i] == slots[..i];
        if slots[i].Some? {
          items := items + [slots[i].value];
        }
      }
      assert slots[..slots.Length] == slots[..];
    }

    /** Every slot cleared, then `sorted` written from slot 0 on. */
    method Refill(sorted: seq<Item>)
      requires Valid() && |sorted| <= SLOT_COUNT
      modifies slots
      ensures slots[..] == Packed(sorted, SLOT_COUNT)
    {
      for i := 0 to slots.Length
        invariant forall j :: 0 <= j < i ==> slots[j] == None
      {
        slots[i] := None;
      }
      for i := 0 to |sorted|
        invariant slots[..] == Packed(sorted[..i], SLOT_COUNT)
      {
        slots[i] := Some(sorted[i]);
        assert sorted[..i + 1] == sorted[..i] + [sorted[i]];
      }
      assert sorted[..|sorted|] == sorted;
    }

    /** `repairAll()`. */
    method RepairAll()
      requires Valid()
      modifies slots
      ensures forall i :: 0 <= i < SLOT_COUNT ==> slots[i] == Repaired(old(slots[i]))
    {
      for i := 0 to slots.Length
        invariant forall j :: 0 <= j < i ==> slots[j] == Repaired(old(slots[j]))
        invariant forall j :: i <= j < slots.Length ==> slots[j] == old(slots[j])
      {
        var slot := slots[i];
        if slot.Some? && slot.value.durability != 0 && slot.value.durability < slot.value.maxDurability {
          slots[i] := Some(slot.value.(durability := slot.value.maxDurability));
        }
      }
    }

    /** `stackItems()`: group the stackable items by key, then merge each group of more than one. */
    method StackItems()
      requires Valid()
      modifies slots
      ensures slots[..] == Stacked(old(slots[..]))
    {
      ghost var orig := slots[..];
      var keys: seq<string> := [];
      var groups: map<string, seq<Entry>> := map[];
      for i := 0 to slots.Length
        invariant slots[..] == orig
        invariant keys == Keys(orig, i)
        invariant forall key :: key in groups <==> key in keys
        invariant forall key :: key in groups ==> groups[key] == Members(orig, key, i)
      {
        var slot := slots[i];
        assert slot == orig[i];
        if slot.Some? && slot.value.stackable {
          var key := StackKey(slot.value);
          if key !in groups {
            KeysMembers(orig, i, key);
            keys := keys + [key];
            groups := groups[key := []];
          }
          groups := groups[key := groups[key] + [Entry(i, slot.value)]];
        }
      }
      for g := 0 to |keys|
        invariant slots[..] == StackPrefix(orig, keys, g)
      {
        var es := groups[keys[g]];
        MembersShape(orig, keys[g], |orig|);
        StackGroup(es);
      }
    }

    /** Merges one group of entries into the slots. */
    method StackGroup(es: seq<Entry>)
      requires Valid() && IndicesIn(es, SLOT_COUNT)
      modifies slots
      ensures slots[..] == ApplyGroup(old(slots[..]), es)
    {
      if |es| > 1 {
        var total := GroupTotal(es);
        var maxStack := if es[0].item.maxStack != 0 then es[0].item.maxStack else DEFAULT_MAX_STACK;
        var first := es[0].item.(quantity := Min(total, maxStack));
        slots[es[0].index] := Some(first);
        ClearOthers(es);
        WriteOverflow(first, es, total - maxStack, maxStack);
      }
    }

    /** The group's total quantity. */
    static method GroupTotal(es: seq<Entry>) returns (total: int)
      ensures total == SumQuantity(es)
    {
      total := 0;
      for k := 0 to |es|
        invariant total == SumQuantity(es[..k])
      {
        assert es[..k + 1][..k] == es[..k];
        total := total + es[k].item.quantity;
      }
      assert es[..|es|] == es;
    }

    /** Clears every slot of the group but the first. */
    method ClearOthers(es: seq<Entry>)
      requires Valid() && IndicesIn(es, SLOT_COUNT)
      modifies slots
      ensures slots[..] == Cleared(old(slots[..]), es, |es|)
    {
      ghost var s1 := slots[..];
      if |es| > 1 {
        for k := 1 to |es|
          invariant slots[..] == Cleared(s1, es, k)
        {
          slots[es[k].index] := None;
        }
      }
    }

    /** `while (remaining > 0 && slotIndex < items.length)`: the overflow stacks. */
    method WriteOverflow(first: Item, es: seq<Entry>, remaining0: int, maxStack: int)
      requires Valid() && IndicesIn(es, SLOT_COUNT)
      modifies slots
      ensures slots[..] == Overflow(old(slots[..]), first, es, 1, remaining0, maxStack)
    {
      ghost var target := Overflow(slots[..], first, es, 1, remaining0, maxStack);
      var remaining := remaining0;
      var slotIndex := 1;
      while remaining > 0 && slotIndex < |es|
        invariant 1 <= slotIndex
        invariant Overflow(slots[..], first, es, slotIndex, remaining, maxStack) == target
        decreases |es| - slotIndex
      {
        var stackSize := Min(remaining, maxStack);
        slots[es[slotIndex].index] := Some(first.(quantity := stackSize));
        remaining := remaining - stackSize;
        slotIndex := slotIndex + 1;
      }
    }
  }
}
