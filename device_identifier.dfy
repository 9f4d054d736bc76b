/** The data logic of components/DeviceIdentifier.tsx: grouping the served
    items by device (how many, and the latest timestamp under JavaScript
    string comparison), and the left/right role read off a device id. */
module DeviceIdentifier {
  import opened Wrappers
  import opened Seqs
  import opened Strings

  /** The two properties of a served item the grouping reads: `deviceId`
      (`None` when absent) and the `timestamp` string. */
  datatype Item = Item(deviceId: Option<string>, timestamp: string)

  /** `DeviceInfo`. */
  datatype DeviceInfo = DeviceInfo(deviceId: string, count: nat, lastSeen: string)

  /** `item.deviceId || 'unknown'`: a missing or empty id is `unknown`. */
  function DeviceKey(item: Item): string {
    if item.deviceId.None? || item.deviceId.value == "" then "unknown" else item.deviceId.value
  }

  /** The group key of every item, in order. */
  function Ids(items: seq<Item>): (ids: seq<string>)
    ensures |ids| == |items| && forall i :: 0 <= i < |items| ==> ids[i] == DeviceKey(items[i])
  {
    seq(|items|, i requires 0 <= i < |items| => DeviceKey(items[i]))
  }

  /** How many items belong to device `id`. */
  function Count(items: seq<Item>, id: string): nat {
    if items == [] then 0
    else Count(items[..|items| - 1], id) + (if DeviceKey(items[|items| - 1]) == id then 1 else 0)
  }

  /** `t` is the timestamp of an item of `id` and no item of `id` has a
      later one under string `>`. */
  ghost predicate IsLatest(items: seq<Item>, id: string, t: string) {
    && (exists j :: 0 <= j < |items| && DeviceKey(items[j]) == id && items[j].timestamp == t)
    && (forall j :: 0 <= j < |items| && DeviceKey(items[j]) == id ==> !Less(t, items[j].timestamp))
  }

  /** The keys of `deviceMap` in insertion order: each device key once,
      appended when its first item comes. */
  function Order(items: seq<Item>): seq<string> {
    if items == [] then []
    else
      var o, k := Order(items[..|items| - 1]), DeviceKey(items[|items| - 1]);
      if k in o then o else o + [k]
  }

  lemma OrderSnoc(items: seq<Item>, item: Item)
    ensures Order(items + [item]) ==
      if DeviceKey(item) in Order(items) then Order(items) else Order(items) + [DeviceKey(item)]
  {
    assert (items + [item])[..|items|] == items;
  }

  /** The insertion order is the first-seen order of the keys. */
  lemma {:induction false} OrderIsDistinct(items: seq<Item>)
    ensures Order(items) == Distinct(Ids(items))
    decreases |items|
  {
    if items != [] {
      var init, item := items[..|items| - 1], items[|items| - 1];
      assert items == init + [item];
      OrderIsDistinct(init);
      OrderSnoc(init, item);
      IdsSnoc(init, item);
      DistinctSnoc(Ids(init), DeviceKey(item));
      DistinctMembers(Ids(init), DeviceKey(item));
    }
  }

  lemma DistinctMembers(s: seq<string>, x: string)
    ensures x in Distinct(s) <==> x in s
  {
    if x in s {
      var k :| 0 <= k < |s| && s[k] == x;
      assert s[k] in Distinct(s);
    }
  }

  /** A key is in the order once one of its items came. */
  lemma OrderMembers(items: seq<Item>, id: string)
    ensures id in Order(items) <==> id in Ids(items)
  {
    OrderIsDistinct(items);
    DistinctMembers(Ids(items), id);
  }

  /** The entry of `id` in `info` describes that device after `items`:
      its id, its number of items and its latest timestamp. */
  ghost predicate EntryOk(items: seq<Item>, info: map<string, DeviceInfo>, id: string) {
    && id in info
    && info[id].deviceId == id
    && info[id].count == Count(items, id)
    && IsLatest(items, id, info[id].lastSeen)
  }

  /** What the grouping map holds after the items of `items`, with `order`
      the insertion order of its keys. */
  ghost predicate Grouped(items: seq<Item>, order: seq<string>, info: map<string, DeviceInfo>) {
    && order == Order(items)
    && (forall id :: id in info <==> id in order)
    && (forall id :: id in info ==> EntryOk(items, info, id))
  }

  /** `if (item.timestamp > info.lastSeen) info.lastSeen = item.timestamp`. */
  function Later(lastSeen: string, timestamp: string): string {
    if Less(lastSeen, timestamp) then timestamp else lastSeen
  }

  lemma LessAsymmetric(a: string, b: string)
    requires Less(a, b)
    ensures !Less(b, a)
  {
    if Less(b, a) {
      LessTransitive(a, b, a);
      LessIrreflexive(a);
    }
  }

  lemma CountSnoc(items: seq<Item>, item: Item, id: string)
    ensures Count(items + [item], id) == Count(items, id) + (if DeviceKey(item) == id then 1 else 0)
  {
    assert (items + [item])[..|items|] == items;
  }

  lemma IdsSnoc(items: seq<Item>, item: Item)
    ensures Ids(items + [item]) == Ids(items) + [DeviceKey(item)]
  {
  }

  /** A device with no items so far. */
  lemma CountAbsent(items: seq<Item>, id: string)
    requires id !in Ids(items)
    ensures Count(items, id) == 0
    decreases |items|
  {
    if items != [] {
      assert Ids(items[..|items| - 1]) == Ids(items)[..|items| - 1];
      CountAbsent(items[..|items| - 1], id);
    }
  }

  /** The latest timestamp after one more item of the same device. */
  lemma LatestStep(items: seq<Item>, item: Item, old_t: string)
    requires IsLatest(items, DeviceKey(item), old_t)
    ensures IsLatest(items + [item], DeviceKey(item), Later(old_t, item.timestamp))
  {
    var id := DeviceKey(item);
    var all := items + [item];
    var t := Later(old_t, item.timestamp);
    var j0 :| 0 <= j0 < |items| && DeviceKey(items[j0]) == id && items[j0].timestamp == old_t;
    if Less(old_t, item.timestamp) {
      assert all[|items|] == item;
      forall j | 0 <= j < |all| && DeviceKey(all[j]) == id ensures !Less(t, all[j].timestamp) {
        if j < |items| {
          assert all[j] == items[j];
          if all[j].timestamp == old_t {
            LessAsymmetric(old_t, t);
          } else {
            LessTotal(old_t, all[j].timestamp);
            LessTransitive(all[j].timestamp, old_t, t);
            LessAsymmetric(all[j].timestamp, t);
          }
        } else {
          LessIrreflexive(t);
        }
      }
    } else {
      assert all[j0] == items[j0];
      forall j | 0 <= j < |all| && DeviceKey(all[j]) == id ensures !Less(t, all[j].timestamp) {
        if j < |items| {
          assert all[j] == items[j];
        }
      }
    }
  }

  /** The latest timestamp of a device's first item. */
  lemma LatestFirst(items: seq<Item>, item: Item)
    requires DeviceKey(item) !in Ids(items)
    ensures IsLatest(items + [item], DeviceKey(item), item.timestamp)
  {
    var all := items + [item];
    LessIrreflexive(item.timestamp);
    assert forall j :: 0 <= j < |items| ==> DeviceKey(all[j]) != DeviceKey(item) by {
      forall j | 0 <= j < |items| ensures DeviceKey(all[j]) != DeviceKey(item) {
        assert all[j] == items[j] && Ids(items)[j] == DeviceKey(items[j]);
      }
    }
    assert all[|items|] == item;
  }

  /** The latest timestamp of another device is unchanged by an item. */
  lemma LatestOther(items: seq<Item>, item: Item, id: string, t: string)
    requires IsLatest(items, id, t) && DeviceKey(item) != id
    ensures IsLatest(items + [item], id, t)
  {
    var all := items + [item];
    var j0 :| 0 <= j0 < |items| && DeviceKey(items[j0]) == id && items[j0].timestamp == t;
    assert all[j0] == items[j0];
    forall j | 0 <= j < |all| && DeviceKey(all[j]) == id ensures !Less(t, all[j].timestamp) {
      assert all[j] == items[j];
    }
  }

  lemma GroupedStart()
    ensures Grouped([], [], map[])
  {
  }

  /** The entry created for the first item of a device, once counted. */
  lemma EntryNew(items: seq<Item>, item: Item, info: map<string, DeviceInfo>)
    requires DeviceKey(item) !in Order(items)
    requires DeviceKey(item) in info && info[DeviceKey(item)] == DeviceInfo(DeviceKey(item), 1, item.timestamp)
    ensures EntryOk(items + [item], info, DeviceKey(item))
  {
    var id := DeviceKey(item);
    OrderMembers(items, id);
    CountSnoc(items, item, id);
    CountAbsent(items, id);
    LatestFirst(items, item);
  }

  /** The entry of a known device after one more of its items. */
  lemma EntryOld(items: seq<Item>, info0: map<string, DeviceInfo>, item: Item, info: map<string, DeviceInfo>)
    requires EntryOk(items, info0, DeviceKey(item))
    requires var id := DeviceKey(item); var d := info0[id];
      id in info && info[id] == DeviceInfo(id, d.count + 1, Later(d.lastSeen, item.timestamp))
    ensures EntryOk(items + [item], info, DeviceKey(item))
  {
    CountSnoc(items, item, DeviceKey(item));
    LatestStep(items, item, info0[DeviceKey(item)].lastSeen);
  }

  /** The entries of the other devices survive one item. */
  lemma EntriesStep(items: seq<Item>, info0: map<string, DeviceInfo>, item: Item, info: map<string, DeviceInfo>)
    requires forall x :: x in info0 ==> EntryOk(items, info0, x)
    requires DeviceKey(item) in info && info == info0[DeviceKey(item) := info[DeviceKey(item)]]
    requires EntryOk(items + [item], info, DeviceKey(item))
    ensures forall x :: x in info ==> EntryOk(items + [item], info, x)
  {
    forall x | x in info && x != DeviceKey(item) ensures EntryOk(items + [item], info, x) {
      assert EntryOk(items, info0, x);
      CountSnoc(items, item, x);
      LatestOther(items, item, x, info0[x].lastSeen);
    }
  }

  /** The map's keys stay those of the insertion order. */
  lemma KeysStep(order0: seq<string>, info0: map<string, DeviceInfo>, id: string,
                 order: seq<string>, info: map<string, DeviceInfo>)
    requires forall x :: x in info0 <==> x in order0
    requires order == (if id in info0 then order0 else order0 + [id])
    requires info.Keys == info0.Keys + {id}
    ensures forall x :: x in info <==> x in order
  {
  }

  /** The turn changes the entry of `id` alone. */
  lemma UpdateShape(info0: map<string, DeviceInfo>, id: string, timestamp: string, info: map<string, DeviceInfo>)
    requires var info1 := if id in info0 then info0 else info0[id := DeviceInfo(id, 0, timestamp)];
      info == info1[id := DeviceInfo(id, info1[id].count + 1, Later(info1[id].lastSeen, timestamp))]
    ensures id in info && info == info0[id := info[id]] && info.Keys == info0.Keys + {id}
  {
  }

  /** One item more: the entry of a new key is created with count 0 at
      the end of the insertion order, then the entry is counted and its
      `lastSeen` advanced. */
  lemma GroupedStep(items: seq<Item>, order0: seq<string>, info0: map<string, DeviceInfo>, item: Item,
                    order: seq<string>, info: map<string, DeviceInfo>)
    requires Grouped(items, order0, info0)
    requires var id := DeviceKey(item);
      var info1 := if id in info0 then info0 else info0[id := DeviceInfo(id, 0, item.timestamp)];
      && order == (if id in info0 then order0 else order0 + [id])
      && info == info1[id := DeviceInfo(id, info1[id].count + 1, Later(info1[id].lastSeen, item.timestamp))]
    ensures Grouped(items + [item], order, info)
  {
    var id := DeviceKey(item);
    assert Order(items + [item]) == order by {
      OrderSnoc(items, item);
    }
    assert EntryOk(items + [item], info, id) by {
      if id in info0 {
        EntryOld(items, info0, item, info);
      } else {
        LessIrreflexive(item.timestamp);
        EntryNew(items, item, info);
      }
    }
    UpdateShape(info0, id, item.timestamp, info);
    assert forall x :: x in info <==> x in order by {
      KeysStep(order0, info0, id, order, info);
    }
    EntriesStep(items, info0, item, info);
  }

  /** One turn of the `forEach`. */
  lemma GroupedNext(items: seq<Item>, n: nat, order0: seq<string>, info0: map<string, DeviceInfo>,
                    order: seq<string>, info: map<string, DeviceInfo>)
    requires n < |items| && Grouped(items[..n], order0, info0)
    requires var id := DeviceKey(items[n]);
      var info1 := if id in info0 then info0 else info0[id := DeviceInfo(id, 0, items[n].timestamp)];
      && order == (if id in info0 then order0 else order0 + [id])
      && info == info1[id := DeviceInfo(id, info1[id].count + 1, Later(info1[id].lastSeen, items[n].timestamp))]
    ensures Grouped(items[..n + 1], order, info)
  {
    assert items[..n + 1] == items[..n] + [items[n]];
    GroupedStep(items[..n], order0, info0, items[n], order, info);
  }

  /** The sum of the counts of a list of devices. */
  function Total(devices: seq<DeviceInfo>): nat {
    if devices == [] then 0 else Total(devices[..|devices| - 1]) + devices[|devices| - 1].count
  }

  /** What the grouping promises about the device list of `items`: one
      entry per device key in first-seen order, each with the number of its
      items and the timestamp of one of them that no other of its items
      exceeds under string `>`, and the counts summing to the number of
      items. */
  ghost predicate Summarises(items: seq<Item>, devices: seq<DeviceInfo>) {
    && |devices| == |Distinct(Ids(items))|
    && (forall i :: 0 <= i < |devices| ==> devices[i].deviceId == Distinct(Ids(items))[i])
    && (forall i :: 0 <= i < |devices| ==> devices[i].count == Count(items, devices[i].deviceId))
    && (forall i :: 0 <= i < |devices| ==>
          exists j :: 0 <= j < |items| && DeviceKey(items[j]) == devices[i].deviceId && items[j].timestamp == devices[i].lastSeen)
    && (forall i, j :: 0 <= i < |devices| && 0 <= j < |items| && DeviceKey(items[j]) == devices[i].deviceId ==>
          !Less(devices[i].lastSeen, items[j].timestamp))
    && Total(devices) == |items|
  }

  /** The grouping `forEach` over the served items: `deviceMap`, with
      `order` the insertion order of its keys. */
  method GroupInto(items: seq<Item>) returns (order: seq<string>, info: map<string, DeviceInfo>)
    ensures Grouped(items, order, info)
  {
    order, info := [], map[];
    GroupedStart();
    for n := 0 to |items|
      invariant Grouped(items[..n], order, info)
    {
      var item := items[n];
      var id := DeviceKey(item);
      ghost var info0, order0 := info, order;
      if id !in info {
        info := info[id := DeviceInfo(id, 0, item.timestamp)];
        order := order + [id];
      }
      var d := info[id];
      info := info[id := DeviceInfo(id, d.count + 1, Later(d.lastSeen, item.timestamp))];
      GroupedNext(items, n, order0, info0, order, info);
    }
    assert items[..|items|] == items;
  }

  /** The grouping followed by `Array.from(deviceMap.values())`. */
  method GroupDevices(items: seq<Item>) returns (devices: seq<DeviceInfo>)
    ensures Summarises(items, devices)
  {
    var order, info := GroupInto(items);
    devices := seq(|order|, i requires 0 <= i < |order| => info[order[i]]);
    GroupedDevices(items, order, info, devices);
  }

  /** What the map's entries, listed in insertion order, say. */
  lemma GroupedDevices(items: seq<Item>, order: seq<string>, info: map<string, DeviceInfo>, devices: seq<DeviceInfo>)
    requires Grouped(items, order, info)
    requires |devices| == |order| && forall i :: 0 <= i < |order| ==> devices[i] == info[order[i]]
    ensures Summarises(items, devices)
  {
    forall i | 0 <= i < |devices|
      ensures devices[i].deviceId == order[i] && devices[i].count == Count(items, order[i])
      ensures IsLatest(items, order[i], devices[i].lastSeen)
    {
      assert order[i] in info;
    }
    OrderIsDistinct(items);
    TotalIsTotalCount(devices, order, items);
    CountsSumToLength(items);
  }

  /** The counts of the devices `ids` added up. */
  function TotalCount(ids: seq<string>, items: seq<Item>): nat {
    if ids == [] then 0 else TotalCount(ids[..|ids| - 1], items) + Count(items, ids[|ids| - 1])
  }

  lemma {:induction false} TotalIsTotalCount(devices: seq<DeviceInfo>, ids: seq<string>, items: seq<Item>)
    requires |devices| == |ids|
    requires forall i :: 0 <= i < |ids| ==> devices[i].count == Count(items, ids[i])
    ensures Total(devices) == TotalCount(ids, items)
    decreases |ids|
  {
    if ids != [] {
      TotalIsTotalCount(devices[..|devices| - 1], ids[..|ids| - 1], items);
    }
  }

  /** One more item adds one to the total over the devices, if its own
      device is among them (once). */
  lemma {:induction false} TotalCountSnocItem(ids: seq<string>, items: seq<Item>, item: Item)
    requires NoDuplicates(ids)
    ensures TotalCount(ids, items + [item]) == TotalCount(ids, items) + (if DeviceKey(item) in ids then 1 else 0)
    decreases |ids|
  {
    if ids != [] {
      var init := ids[..|ids| - 1];
      assert NoDuplicates(init);
      TotalCountSnocItem(init, items, item);
      CountSnoc(items, item, ids[|ids| - 1]);
      assert ids == init + [ids[|ids| - 1]];
      if DeviceKey(item) == ids[|ids| - 1] {
        assert DeviceKey(item) !in init;
      }
    }
  }

  lemma TotalCountSnocId(ids: seq<string>, x: string, items: seq<Item>)
    ensures TotalCount(ids + [x], items) == TotalCount(ids, items) + Count(items, x)
  {
    assert (ids + [x])[..|ids|] == ids;
  }

  /** Every item is counted once: the counts over all devices sum to the
      number of items. */
  lemma {:induction false} CountsSumToLength(items: seq<Item>)
    ensures TotalCount(Distinct(Ids(items)), items) == |items|
    decreases |items|
  {
    if items != [] {
      var init, item := items[..|items| - 1], items[|items| - 1];
      assert items == init + [item];
      CountsSumToLength(init);
      var ids := Distinct(Ids(init));
      var x := DeviceKey(item);
      IdsSnoc(init, item);
      DistinctSnoc(Ids(init), x);
      TotalCountSnocItem(ids, init, item);
      assert x in ids <==> x in Ids(init);
      if x !in Ids(init) {
        TotalCountSnocId(ids, x, items);
        CountSnoc(init, item, x);
        CountAbsent(init, x);
      }
    }
  }

  lemma {:induction false} DistinctOfConstant(s: seq<string>, x: string)
    requires |s| >= 1 && forall i :: 0 <= i < |s| ==> s[i] == x
    ensures Distinct(s) == [x]
    decreases |s|
  {
    var init := s[..|s| - 1];
    assert s == init + [x];
    DistinctSnoc(init, x);
    if |init| >= 1 {
      DistinctOfConstant(init, x);
      assert init[0] == x;
    }
  }

  /** The data route serves records without a `deviceId`, so all of them
      are one device, `unknown`. */
  lemma UnknownWithoutIds(items: seq<Item>)
    requires |items| >= 1 && forall i :: 0 <= i < |items| ==> items[i].deviceId.None?
    ensures Distinct(Ids(items)) == ["unknown"]
  {
    DistinctOfConstant(Ids(items), "unknown");
  }

  // ---- Roles and colours ----

  /** `getDeviceRole`: `LEFT` when the lower-cased id contains `left`, else
      `RIGHT` when it contains `right`, else `?`. */
  function DeviceRole(deviceId: string): string {
    var id := Lower(deviceId);
    if Contains(id, "left") then "LEFT"
    else if Contains(id, "right") then "RIGHT"
    else "?"
  }

  /** `getDeviceColor`: the colour class of the role. */
  function DeviceColor(deviceId: string): string {
    var role := DeviceRole(deviceId);
    if role == "LEFT" then "bg-blue-500"
    else if role == "RIGHT" then "bg-red-500"
    else "bg-gray-500"
  }

  /** The three roles, with `left` winning over `right`. */
  lemma RoleCases(deviceId: string)
    ensures DeviceRole(deviceId) == "LEFT" <==> Contains(Lower(deviceId), "left")
    ensures DeviceRole(deviceId) == "RIGHT" <==>
      !Contains(Lower(deviceId), "left") && Contains(Lower(deviceId), "right")
    ensures DeviceRole(deviceId) == "?" <==>
      !Contains(Lower(deviceId), "left") && !Contains(Lower(deviceId), "right")
  {
  }

  /** The role ignores ASCII case. */
  lemma RoleIgnoresCase(deviceId: string)
    ensures DeviceRole(Lower(deviceId)) == DeviceRole(deviceId)
  {
    LowerIdempotent(deviceId);
  }

  /** The colour is a function of the role alone. */
  lemma ColorFollowsRole(a: string, b: string)
    requires DeviceRole(a) == DeviceRole(b)
    ensures DeviceColor(a) == DeviceColor(b)
    ensures DeviceColor(a) == (if DeviceRole(a) == "LEFT" then "bg-blue-500"
      else if DeviceRole(a) == "RIGHT" then "bg-red-500" else "bg-gray-500")
  {
  }
}
