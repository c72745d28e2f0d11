/**
Data that a kernel collects for one leaf while it runs: groups that are created on demand, each
holding one bit per point in a shared array, and strings that the leaf's metadata does not know yet.
*/
module PointLeafLocalDatas {
  import opened Types

  /** The number of groups that share one array. */
  const GROUP_BITS := 8

  /** One group's bit in the array that holds it. */
  class GroupHandle {
    const bits: array2<bool>
    const offset: nat

    constructor (bits: array2<bool>, offset: nat)
      requires offset < bits.Length1
      ensures this.bits == bits && this.offset == offset
    {
      this.bits := bits;
      this.offset := offset;
    }

    predicate Fits(index: nat) {
      index < bits.Length0 && offset < bits.Length1
    }

    function Get(index: nat): bool
      requires Fits(index)
      reads bits
    {
      bits[index, offset]
    }

    method Put(index: nat, on: bool)
      requires Fits(index)
      modifies bits
      ensures Get(index) == on
      ensures forall i, b | 0 <= i < bits.Length0 && 0 <= b < bits.Length1 && (i, b) != (index, offset) ::
                bits[i, b] == old(bits[i, b])
    {
      bits[index, offset] := on;
    }

    /** Whether two handles stand for the same bit. */
    predicate SameSlot(other: GroupHandle) {
      bits == other.bits && offset == other.offset
    }
  }

  /** The values of a string attribute; its identity is the key of the pending strings. */
  class StringArray {
    var values: seq<string>

    constructor (values: seq<string>)
      ensures this.values == values
    {
      this.values := values;
    }
  }

  type Groups = map<string, GroupHandle>
  type PointStrings = map<nat, string>

  /** The string pending for a point of an attribute array, if any. */
  function Pending(strings: map<StringArray, PointStrings>, key: StringArray, index: nat): Option<string> {
    if key in strings && index in strings[key] then Some(strings[key][index]) else None
  }

  /** The k-th new group owns the k-th bit, counted through all arrays. */
  ghost predicate HasSlot(handles: Groups, arrays: seq<array2<bool>>, name: string, k: nat) {
    name in handles && k / GROUP_BITS < |arrays| &&
    handles[name].bits == arrays[k / GROUP_BITS] && handles[name].offset == k % GROUP_BITS
  }

  /** Groups fill the arrays bit by bit; `names` lists them in the order in which they were created. */
  ghost predicate Layout(
    names: seq<string>, handles: Groups, arrays: seq<array2<bool>>, offset: nat, count: nat) {
    (forall name :: name in handles <==> name in names) &&
    (forall i, j | 0 <= i < j < |names| :: names[i] != names[j]) &&
    (forall i, j | 0 <= i < j < |arrays| :: arrays[i] != arrays[j]) &&
    (forall a | 0 <= a < |arrays| :: arrays[a].Length0 == count && arrays[a].Length1 == GROUP_BITS) &&
    offset <= GROUP_BITS &&
    |names| == (if arrays == [] then 0 else (|arrays| - 1) * GROUP_BITS + offset) &&
    forall k | 0 <= k < |names| :: HasSlot(handles, arrays, names[k], k)
  }

  lemma LayoutGrows(
    names: seq<string>, handles: Groups, arrays: seq<array2<bool>>, count: nat, bits: array2<bool>)
    requires Layout(names, handles, arrays, if arrays == [] then 0 else GROUP_BITS, count)
    requires bits.Length0 == count && bits.Length1 == GROUP_BITS && bits !in arrays
    ensures Layout(names, handles, arrays + [bits], 0, count)
  {
    var more := arrays + [bits];
    forall k | 0 <= k < |names| ensures HasSlot(handles, more, names[k], k) {
      assert HasSlot(handles, arrays, names[k], k);
    }
  }

  lemma LayoutAdds(
    names: seq<string>, handles: Groups, arrays: seq<array2<bool>>, offset: nat, count: nat,
    name: string, handle: GroupHandle)
    requires Layout(names, handles, arrays, offset, count)
    requires arrays != [] && offset < GROUP_BITS && name !in handles
    requires handle.bits == arrays[|arrays| - 1] && handle.offset == offset
    ensures Layout(names + [name], handles[name := handle], arrays, offset + 1, count)
  {
    var all, more := handles[name := handle], names + [name];
    forall n ensures n in all <==> n in more {
      assert n in handles <==> n in names;
    }
    forall k | 0 <= k < |more| ensures HasSlot(all, arrays, more[k], k) {
      if k < |names| {
        assert HasSlot(handles, arrays, names[k], k);
      } else {
        SlotOf(k, |arrays| - 1, offset);
      }
    }
  }

  lemma SlotOf(k: nat, a: nat, bit: nat)
    requires k == a * GROUP_BITS + bit && bit < GROUP_BITS
    ensures k / GROUP_BITS == a && k % GROUP_BITS == bit
  {}

  /** Distinct new groups never share a bit. */
  lemma SlotsAreDistinct(
    names: seq<string>, handles: Groups, arrays: seq<array2<bool>>, offset: nat, count: nat,
    m: string, n: string)
    requires Layout(names, handles, arrays, offset, count)
    requires m in handles && n in handles && m != n
    ensures !handles[m].SameSlot(handles[n])
  {
    var i :| 0 <= i < |names| && names[i] == m;
    var j :| 0 <= j < |names| && names[j] == n;
    assert HasSlot(handles, arrays, m, i) && HasSlot(handles, arrays, n, j);
  }

  /** Every bit of every array but the last belongs to a group. */
  lemma AllButLastFull(
    names: seq<string>, handles: Groups, arrays: seq<array2<bool>>, offset: nat, count: nat,
    a: nat, bit: nat)
    requires Layout(names, handles, arrays, offset, count)
    requires a < |arrays| - 1 && bit < GROUP_BITS
    ensures exists name :: name in handles && handles[name].bits == arrays[a] && handles[name].offset == bit
  {
    var k := a * GROUP_BITS + bit;
    SlotOf(k, a, bit);
    assert HasSlot(handles, arrays, names[k], k);
  }

  lemma InArrays(
    names: seq<string>, handles: Groups, arrays: seq<array2<bool>>, offset: nat, count: nat, name: string)
    requires Layout(names, handles, arrays, offset, count) && name in handles
    ensures handles[name].bits in arrays && handles[name].offset < GROUP_BITS
  {
    var k :| 0 <= k < |names| && names[k] == name;
    assert HasSlot(handles, arrays, name, k);
  }

  ghost predicate ClearFrom(bits: array2<bool>, offset: nat)
    reads bits
  {
    forall i, b | 0 <= i < bits.Length0 && offset <= b < bits.Length1 :: !bits[i, b]
  }

  ghost predicate NoMembers(handle: GroupHandle)
    reads handle.bits
  {
    forall i: nat | handle.Fits(i) :: !handle.Get(i)
  }

  class PointLeafLocalData {
    const pointCount: nat
    var arrays: seq<array2<bool>>
    var offset: nat
    var handles: Groups
    var strings: map<StringArray, PointStrings>
    ghost var names: seq<string>

    /** The bits that no group owns yet are not set. */
    ghost predicate UnusedAreClear()
      reads this, arrays
    {
      arrays != [] ==> ClearFrom(arrays[|arrays| - 1], offset)
    }

    ghost predicate Valid()
      reads this, arrays
    {
      Layout(names, handles, arrays, offset, pointCount) && UnusedAreClear() &&
      (if arrays == [] then offset == 0 else offset > 0) &&
      forall key | key in strings :: strings[key] != map[]
    }

    constructor (count: nat)
      ensures Valid() && pointCount == count
      ensures handles == map[] && arrays == [] && strings == map[]
    {
      pointCount := count;
      arrays := [];
      offset := 0;
      handles := map[];
      strings := map[];
      names := [];
    }

    /** The handle of a new group, if the group exists. */
    function Lookup(name: string): (handle: Option<GroupHandle>)
      reads this
      ensures handle.Some? <==> HasGroup(name)
    {
      if name in handles then Some(handles[name]) else None
    }

    predicate HasGroup(name: string)
      reads this
    {
      name in handles
    }

    /** The handle of a group, which is created without members when it does not exist. */
    method GetOrInsert(name: string) returns (handle: GroupHandle)
      requires Valid()
      modifies this`arrays, this`offset, this`handles, this`names
      ensures Valid()
      ensures handle.bits in arrays && handle.bits.Length0 == pointCount && handle.offset < handle.bits.Length1
      ensures name in handles && handles == old(handles)[name := handle]
      ensures old(arrays) <= arrays && forall a | |old(arrays)| <= a < |arrays| :: fresh(arrays[a])
      ensures if name in old(handles) then handle == old(handles[name]) && names == old(names)
              else NoMembers(handle) && names == old(names) + [name]
    {
      hide Layout;
      var found := Lookup(name);
      if found.Some? {
        InArrays(names, handles, arrays, offset, pointCount, name);
        ArraysFit(found.value.bits);
        return found.value;
      }
      if arrays == [] || offset == GROUP_BITS {
        var bits := new bool[pointCount, GROUP_BITS]((_, _) => false);
        LayoutGrows(names, handles, arrays, pointCount, bits);
        arrays := arrays + [bits];
        offset := 0;
      }
      ArraysFit(arrays[|arrays| - 1]);
      OffsetFits();
      handle := new GroupHandle(arrays[|arrays| - 1], offset);
      LayoutAdds(names, handles, arrays, offset, pointCount, name, handle);
      handles := handles[name := handle];
      offset := offset + 1;
      names := names + [name];
    }

    lemma ArraysFit(bits: array2<bool>)
      requires Layout(names, handles, arrays, offset, pointCount) && bits in arrays
      ensures bits.Length0 == pointCount && bits.Length1 == GROUP_BITS
    {}

    lemma OffsetFits()
      requires Layout(names, handles, arrays, offset, pointCount)
      ensures offset <= GROUP_BITS
    {}

    /** Looks up the string pending for a point of an attribute array. */
    method GetNewStringData(key: StringArray, index: nat) returns (data: Option<string>)
      ensures data == Pending(strings, key, index)
    {
      if key !in strings { return None; }
      if index !in strings[key] { return None; }
      data := Some(strings[key][index]);
    }

    method SetNewStringData(key: StringArray, index: nat, data: string)
      requires Valid()
      modifies this`strings
      ensures Valid()
      ensures forall k, i :: Pending(strings, k, i) ==
                if k == key && i == index then Some(data) else Pending(old(strings), k, i)
    {
      hide Layout;
      var inner: PointStrings := if key in strings then strings[key] else map[];
      inner := inner[index := data];
      assert index in inner;
      strings := strings[key := inner];
    }

    /** Drops the string pending for a point; an array without pending strings is dropped as well. */
    method RemoveNewStringData(key: StringArray, index: nat)
      requires Valid()
      modifies this`strings
      ensures Valid()
      ensures forall k, i :: Pending(strings, k, i) ==
                if k == key && i == index then None else Pending(old(strings), k, i)
    {
      hide Layout;
      if key !in strings { return; }
      var inner := strings[key] - {index};
      strings := strings[key := inner];
      if inner == map[] {
        strings := strings - {key};
      }
      assert index !in inner && forall i | i != index :: i in inner <==> i in old(strings)[key];
    }

    /** Whether a string is pending for some point of one of the given arrays. */
    ghost predicate PendingIn(keys: set<StringArray>, s: string)
      reads this
    {
      exists key, index :: key in keys && Pending(strings, key, index) == Some(s)
    }

    /** Hands every pending string to an inserter and tells whether there was any. */
    method InsertNewStrings(inserter: StringMetaInserter) returns (modified: bool)
      requires Valid()
      modifies inserter
      ensures modified <==> exists key, index :: Pending(strings, key, index).Some?
      ensures forall s :: s in inserter.strings <==> (s in old(inserter.strings) || PendingIn(strings.Keys, s))
    {
      var keys := strings.Keys;
      ghost var passed: set<StringArray> := {};
      while keys != {}
        invariant keys + passed == strings.Keys
        invariant forall s :: s in inserter.strings <==> (s in old(inserter.strings) || PendingIn(passed, s))
      {
        var key :| key in keys;
        ghost var start := inserter.strings;
        InsertAll(inserter, strings[key]);
        forall s ensures s in inserter.strings <==> (s in start || PendingIn({key}, s)) {
          if PendingIn({key}, s) {
            var index :| Pending(strings, key, index) == Some(s);
            assert strings[key][index] == s;
          }
          if s in strings[key].Values {
            var index :| index in strings[key] && strings[key][index] == s;
            assert Pending(strings, key, index) == Some(s);
          }
        }
        forall s ensures PendingIn(passed + {key}, s) <==> (PendingIn(passed, s) || PendingIn({key}, s)) {
          if PendingIn({key}, s) {
            var index :| Pending(strings, key, index) == Some(s);
            assert key in passed + {key};
          }
        }
        passed := passed + {key};
        keys := keys - {key};
      }
      modified := strings != map[];
      if modified {
        var key :| key in strings;
        assert strings[key] != map[];
        var index :| index in strings[key];
        assert Pending(strings, key, index).Some?;
      }
    }

    static method InsertAll(inserter: StringMetaInserter, points: PointStrings)
      modifies inserter
      ensures inserter.strings == old(inserter.strings) + points.Values
    {
      var keys := points.Keys;
      ghost var passed: set<nat> := {};
      while keys != {}
        invariant keys + passed == points.Keys
        invariant inserter.strings == old(inserter.strings) + set i | i in passed :: points[i]
      {
        var index :| index in keys;
        inserter.Insert(points[index]);
        assert (set i | i in passed + {index} :: points[i]) == (set i | i in passed :: points[i]) + {points[index]};
        passed := passed + {index};
        keys := keys - {index};
      }
    }
  }

  /** Collects the strings that have to be added to the metadata of a leaf. */
  class StringMetaInserter {
    var strings: set<string>

    constructor ()
      ensures strings == {}
    {
      strings := {};
    }

    method Insert(s: string)
      modifies this
      ensures strings == old(strings) + {s}
    {
      strings := strings + {s};
    }
  }
}
