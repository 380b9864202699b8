/** The replicated store of the cluster: filters mapped to the nodes that subscribe to
    them. Slices are arrays with a length, since deletion shifts them in place while the
    same array is being ranged over. */
module Store {
  import opened Options

  // ----- the store as a value

  type Lists = map<string, seq<string>>

  predicate Distinct(list: seq<string>) {
    forall i, j :: 0 <= i < j < |list| ==> list[i] != list[j]
  }

  /** Every key has a non-empty list without duplicates. */
  predicate WellKept(lists: Lists) {
    forall key :: key in lists ==> lists[key] != [] && Distinct(lists[key])
  }

  /** The relation the store stands for. */
  predicate Holds(lists: Lists, key: string, value: string) {
    key in lists && value in lists[key]
  }

  /** The list without the first occurrence of the value. */
  function Without(list: seq<string>, value: string): (r: seq<string>) {
    if list == [] then []
    else if list[0] == value then list[1..]
    else [list[0]] + Without(list[1..], value)
  }

  function Added(lists: Lists, key: string, value: string): (r: Lists) {
    if key !in lists then lists[key := [value]]
    else if value in lists[key] then lists
    else lists[key := lists[key] + [value]]
  }

  /** The empty value stands for the whole key. */
  function Deleted(lists: Lists, key: string, value: string): (r: Lists) {
    if key !in lists then lists
    else if value == "" || Without(lists[key], value) == [] then lists - {key}
    else lists[key := Without(lists[key], value)]
  }

  function Purged(lists: Lists, value: string): (r: Lists) {
    if value == "" then lists
    else map key | key in lists && Without(lists[key], value) != [] :: Without(lists[key], value)
  }

  /** The store after DelByValue has been through all keys but some. */
  function PurgedBut(lists: Lists, value: string, todo: set<string>): (r: Lists) {
    map key | key in lists && (key in todo || Without(lists[key], value) != []) ::
      if key in todo then lists[key] else Without(lists[key], value)
  }

  /** The keys gone through whose lists had the value. */
  function Having(lists: Lists, value: string, todo: set<string>): (r: set<string>) {
    set key | key in lists && key !in todo && value in lists[key]
  }

  lemma PurgeNone(lists: Lists, value: string)
    ensures PurgedBut(lists, value, lists.Keys) == lists && Having(lists, value, lists.Keys) == {}
    ensures value != "" ==> PurgedBut(lists, value, {}) == Purged(lists, value)
  {
  }

  lemma PurgeOne(lists: Lists, value: string, todo: set<string>, key: string)
    requires key in todo && todo <= lists.Keys && value != ""
    ensures PurgedBut(lists, value, todo)[key] == lists[key]
    ensures PurgedBut(lists, value, todo - {key}) == Deleted(PurgedBut(lists, value, todo), key, value)
    ensures |Having(lists, value, todo - {key})| == |Having(lists, value, todo)| + if value in lists[key] then 1 else 0
  {
    assert Having(lists, value, todo - {key}) ==
           Having(lists, value, todo) + if value in lists[key] then {key} else {};
  }

  lemma {:induction false} WithoutIs(list: seq<string>, value: string)
    requires Distinct(list)
    ensures Distinct(Without(list, value))
    ensures forall v :: v in Without(list, value) <==> v in list && v != value
  {
    if list != [] {
      WithoutIs(list[1..], value);
      assert list == [list[0]] + list[1..];
      if list[0] != value {
        assert forall i :: 0 <= i < |list[1..]| ==> list[1..][i] == list[i + 1];
        assert list[0] !in list[1..];
        assert list[0] !in Without(list[1..], value);
      }
    }
  }

  lemma {:induction false} WithoutAt(list: seq<string>, value: string, p: nat)
    requires p < |list| && list[p] == value && forall k :: 0 <= k < p ==> list[k] != value
    ensures Without(list, value) == list[..p] + list[p + 1..]
  {
    if p > 0 {
      WithoutAt(list[1..], value, p - 1);
    }
  }

  lemma {:induction false} WithoutAbsent(list: seq<string>, value: string)
    requires value !in list
    ensures Without(list, value) == list
  {
    if list != [] {
      WithoutAbsent(list[1..], value);
    }
  }

  lemma ListDistinct(lists: Lists, key: string)
    requires WellKept(lists) && key in lists
    ensures Distinct(lists[key])
  {
  }

  lemma AddedIs(lists: Lists, key: string, value: string)
    requires WellKept(lists)
    ensures WellKept(Added(lists, key, value))
    ensures forall f, n :: Holds(Added(lists, key, value), f, n) <==> Holds(lists, f, n) || (f == key && n == value)
  {
  }

  lemma DeletedIs(lists: Lists, key: string, value: string)
    requires WellKept(lists)
    ensures WellKept(Deleted(lists, key, value))
    ensures forall f, n :: Holds(Deleted(lists, key, value), f, n) <==>
                           Holds(lists, f, n) && !(f == key && (value == "" || n == value))
  {
    if key in lists { WithoutIs(lists[key], value); }
  }

  lemma PurgedIs(lists: Lists, value: string)
    requires WellKept(lists)
    ensures WellKept(Purged(lists, value))
    ensures forall f, n :: Holds(Purged(lists, value), f, n) <==> Holds(lists, f, n) && (n != value || value == "")
  {
    forall key | key in lists
      ensures Distinct(Without(lists[key], value))
      ensures forall v :: v in Without(lists[key], value) <==> v in lists[key] && v != value
    {
      WithoutIs(lists[key], value);
    }
  }

  lemma RestoreNone()
    ensures WellKept(map[])
  {
  }

  lemma RestoreOne(lists: Lists, todo: set<string>, key: string)
    requires WellKept(lists) && key in todo && todo <= lists.Keys
    ensures lists - (todo - {key}) == (lists - todo)[key := lists[key]]
    ensures WellKept(lists - (todo - {key}))
  {
  }

  // ----- slices and the store that updates them

  datatype Slice = Slice(arr: array<string>, len: nat)

  /** Deletes the value by shifting the rest of the array down, and goes on ranging over
      the array it has just shifted: the last element is then seen twice. Exactly one
      element goes because the list has no duplicates. */
  method RemoveWhileRanging(vs: Slice, value: string) returns (out: Slice, removed: nat)
    requires vs.len <= vs.arr.Length && Distinct(vs.arr[..vs.len])
    modifies vs.arr
    ensures out.arr == vs.arr && out.len <= vs.arr.Length
    ensures out.arr[..out.len] == Without(old(vs.arr[..vs.len]), value)
    ensures removed == if value in old(vs.arr[..vs.len]) then 1 else 0
  {
    hide Without;
    ghost var was := vs.arr[..vs.len];
    ghost var p: nat := vs.len;
    out, removed := vs, 0;
    for i := 0 to vs.len
      invariant removed == 0 ==> p == vs.len && out == vs && vs.arr[..vs.len] == was
      invariant removed == 0 ==> forall k :: 0 <= k < i ==> was[k] != value
      invariant removed != 0 ==> removed == 1 && p < i && was[p] == value && out == Slice(vs.arr, vs.len - 1)
      invariant removed != 0 ==> forall k :: 0 <= k < vs.len ==>
                vs.arr[k] == was[if k < p || k == vs.len - 1 then k else k + 1]
    {
      ghost var now := if removed == 0 || i == vs.len - 1 then i else i + 1;
      assert vs.arr[i] == was[now];
      if vs.arr[i] == value {
        p := i;
        forall k | i <= k < vs.len - 1 { vs.arr[k] := vs.arr[k + 1]; }
        out, removed := Slice(vs.arr, vs.len - 1), removed + 1;
      }
    }
    if removed == 0 {
      WithoutAbsent(was, value);
    } else {
      WithoutAt(was, value, p);
      assert out.arr[..out.len] == was[..p] + was[p + 1..];
    }
  }

  /** Go's append: in place while there is room, else in a larger copy. */
  method Append(vs: Slice, value: string) returns (out: Slice)
    requires vs.len <= vs.arr.Length
    modifies vs.arr
    ensures out.len == vs.len + 1 <= out.arr.Length
    ensures out.arr[..out.len] == old(vs.arr[..vs.len]) + [value]
    ensures out.arr == vs.arr || fresh(out.arr)
  {
    var arr := vs.arr;
    if vs.len == vs.arr.Length {
      arr := new string[2 * vs.len + 1];
      forall k | 0 <= k < vs.len { arr[k] := vs.arr[k]; }
    }
    arr[vs.len] := value;
    out := Slice(arr, vs.len + 1);
  }

  method FromList(list: seq<string>) returns (out: Slice)
    ensures fresh(out.arr) && Keeps(out, list)
  {
    var arr := new string[|list|];
    forall k | 0 <= k < |list| { arr[k] := list[k]; }
    out := Slice(arr, |list|);
  }

  ghost predicate Keeps(vs: Slice, list: seq<string>)
    reads vs.arr
  {
    vs.len <= vs.arr.Length && vs.arr[..vs.len] == list
  }

  class KV {
    var data: map<string, Slice>
    ghost var lists: Lists                        // what the slices hold
    ghost var owner: map<array<string>, string>   // the key whose slice uses an array

    ghost function Arrays(): (r: set<array<string>>)
      reads this
    {
      owner.Keys
    }

    ghost predicate Filed(key: string)
      requires key in data && key in lists
      reads this, Arrays()
    {
      data[key].arr in owner && owner[data[key].arr] == key && Keeps(data[key], lists[key])
    }

    /** Every list is well kept, and no two keys share an array. */
    ghost predicate Valid()
      reads this, Arrays()
    {
      && data.Keys == lists.Keys
      && (forall key :: key in data ==> Filed(key))
      && WellKept(lists)
    }

    constructor ()
      ensures Valid() && lists == map[] && fresh(Arrays())
    {
      data, lists, owner := map[], map[], map[];
    }

    ghost predicate OthersFiled(key: string)
      reads this, Arrays()
    {
      data.Keys == lists.Keys && forall other :: other in data && other != key ==> Filed(other)
    }

    method File(key: string, vs: Slice, ghost list: seq<string>)
      requires OthersFiled(key) && Keeps(vs, list) && (vs.arr in owner ==> owner[vs.arr] == key)
      modifies this
      ensures data == old(data)[key := vs] && lists == old(lists)[key := list] && owner == old(owner)[vs.arr := key]
      ensures data.Keys == lists.Keys && forall other :: other in data ==> Filed(other)
    {
      data, lists, owner := data[key := vs], lists[key := list], owner[vs.arr := key];
    }

    /** Tells whether the key is new. */
    method Add(key: string, value: string) returns (isNew: bool)
      requires Valid()
      modifies this, Arrays()
      ensures Valid() && fresh(Arrays() - old(Arrays()))
      ensures lists == Added(old(lists), key, value)
      ensures isNew <==> key !in old(lists)
    {
      hide Holds, Distinct, WellKept;
      AddedIs(lists, key, value);
      isNew := key !in data;
      if key in data {
        var vs := data[key];
        if value in vs.arr[..vs.len] {
          return;
        }
        vs := Append(vs, value);
        File(key, vs, lists[key] + [value]);
      } else {
        var list := new string[1];
        list[0] := value;
        File(key, Slice(list, 1), [value]);
      }
    }

    /** Tells whether the key went away. */
    method Del(key: string, value: string) returns (empty: bool)
      requires Valid()
      modifies this, Arrays()
      ensures Valid() && Arrays() == old(Arrays())
      ensures lists == Deleted(old(lists), key, value)
      ensures empty <==> key in old(lists) && key !in lists
    {
      hide Holds, Distinct, WellKept, Without;
      DeletedIs(lists, key, value);
      empty := false;
      if key in data {
        var vs := data[key];
        ListDistinct(lists, key);
        if value in vs.arr[..vs.len] {
          var removed;
          vs, removed := RemoveWhileRanging(vs, value);
        } else {
          WithoutAbsent(lists[key], value);
        }
        if value == "" || vs.len == 0 {
          data, lists := data - {key}, lists - {key};
          empty := true;
        } else {
          File(key, vs, Without(lists[key], value));
        }
      }
    }

    /** One turn of DelByValue's loop over the keys. */
    method DelFrom(key: string, value: string) returns (removed: nat)
      requires Valid() && key in data && value != ""
      modifies this, Arrays()
      ensures Valid() && Arrays() == old(Arrays())
      ensures lists == Deleted(old(lists), key, value)
      ensures removed == if value in old(lists)[key] then 1 else 0
    {
      hide Holds, Distinct, WellKept, Without;
      DeletedIs(lists, key, value);
      ListDistinct(lists, key);
      var vs;
      vs, removed := RemoveWhileRanging(data[key], value);
      if vs.len == 0 {
        data, lists := data - {key}, lists - {key};
      } else {
        File(key, vs, Without(lists[key], value));
      }
    }

    /** Removes a node from every filter, in whatever order the keys come, and counts the
        filters that had it. */
    method DelByValue(value: string) returns (count: nat)
      requires Valid()
      modifies this, Arrays()
      ensures Valid() && Arrays() == old(Arrays())
      ensures lists == Purged(old(lists), value)
      ensures count == if value == "" then 0 else |Having(old(lists), value, {})|
    {
      hide Holds, Distinct, WellKept, Without;
      count := 0;
      if value == "" {
        return;
      }
      ghost var was := lists;
      var todo := data.Keys;
      PurgeNone(was, value);
      while todo != {}
        invariant Valid() && Arrays() == old(Arrays())
        invariant todo <= was.Keys && lists == PurgedBut(was, value, todo)
        invariant count == |Having(was, value, todo)|
      {
        var key :| key in todo;
        PurgeOne(was, value, todo, key);
        var removed := DelFrom(key, value);
        count, todo := count + removed, todo - {key};
      }
    }

    /** A deep copy of the store, which shares no array with it. */
    method GetAll() returns (copy: Lists)
      requires Valid()
      ensures copy == lists
    {
      copy := map key | key in data :: data[key].arr[..data[key].len];
    }

    /** Replaces the store by a decoded snapshot; on a decoding error nothing changes. */
    method Restore(snapshot: Option<Lists>) returns (ok: bool)
      requires Valid() && (snapshot.Some? ==> WellKept(snapshot.value))
      modifies this
      ensures Valid() && fresh(Arrays() - old(Arrays()))
      ensures ok <==> snapshot.Some?
      ensures lists == if ok then snapshot.value else old(lists)
    {
      hide Holds, Distinct, WellKept;
      ok := snapshot.Some?;
      if ok {
        data, lists := map[], map[];
        var todo := snapshot.value.Keys;
        assert lists == snapshot.value - todo;
        RestoreNone();
        while todo != {}
          invariant Valid() && fresh(Arrays() - old(Arrays()))
          invariant todo <= snapshot.value.Keys && lists == snapshot.value - todo
        {
          var key :| key in todo;
          RestoreOne(snapshot.value, todo, key);
          var vs := FromList(snapshot.value[key]);
          File(key, vs, snapshot.value[key]);
          todo := todo - {key};
        }
      }
    }
  }
}
