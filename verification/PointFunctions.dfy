/**
The functions through which a point kernel edits and queries group membership and string
attributes. Groups and strings that the point tree does not have yet live in the leaf's local data.
*/
module PointFunctions {
  import opened Types
  import opened PointLeafLocalDatas

  /** The group handles of the point tree; a null array of handles is None. */
  type GroupHandles = Option<Groups>

  /** The handle the point tree has for a group, if any. */
  function GroupHandleOf(name: string, groupHandles: Groups): Option<GroupHandle> {
    if name in groupHandles then Some(groupHandles[name]) else None
  }

  function Footprint(groupHandles: GroupHandles): set<object> {
    if groupHandles.None? then {} else set name | name in groupHandles.value :: groupHandles.value[name].bits
  }

  /** Each group of the tree has its own bit, and none shares an array with a new group. */
  ghost predicate Separate(groupHandles: GroupHandles, leaf: PointLeafLocalData)
    reads leaf
  {
    groupHandles.Some? ==>
    var handles := groupHandles.value;
    (forall m, n | m in handles && n in handles && m != n :: !handles[m].SameSlot(handles[n])) &&
    forall n | n in handles :: handles[n].bits !in leaf.arrays &&
      handles[n].bits.Length0 == leaf.pointCount && handles[n].offset < handles[n].bits.Length1
  }

  ghost predicate Ready(groupHandles: GroupHandles, leaf: PointLeafLocalData)
    reads leaf, leaf.arrays
  {
    leaf.Valid() && Separate(groupHandles, leaf)
  }

  /** The bit that records a point's membership of a group. */
  function HandleOf(name: string, groupHandles: GroupHandles, leaf: PointLeafLocalData): Option<GroupHandle>
    reads leaf
  {
    if groupHandles.Some? && name in groupHandles.value then Some(groupHandles.value[name])
    else if name in leaf.handles then Some(leaf.handles[name])
    else None
  }

  lemma HandleFits(name: string, groupHandles: GroupHandles, leaf: PointLeafLocalData)
    requires Ready(groupHandles, leaf)
    ensures var handle := HandleOf(name, groupHandles, leaf);
            handle.Some? ==> handle.value.bits.Length0 == leaf.pointCount &&
                             handle.value.offset < handle.value.bits.Length1 &&
                             (handle.value.bits in leaf.arrays || handle.value.bits in Footprint(groupHandles))
  {
    if name in leaf.handles {
      InArrays(leaf.names, leaf.handles, leaf.arrays, leaf.offset, leaf.pointCount, name);
    }
  }

  /** No two groups share a bit, wherever they live. */
  lemma HandlesAreDistinct(m: string, n: string, groupHandles: GroupHandles, leaf: PointLeafLocalData)
    requires Ready(groupHandles, leaf) && m != n
    requires HandleOf(m, groupHandles, leaf).Some? && HandleOf(n, groupHandles, leaf).Some?
    ensures !HandleOf(m, groupHandles, leaf).value.SameSlot(HandleOf(n, groupHandles, leaf).value)
  {
    if m in leaf.handles {
      InArrays(leaf.names, leaf.handles, leaf.arrays, leaf.offset, leaf.pointCount, m);
    }
    if n in leaf.handles {
      InArrays(leaf.names, leaf.handles, leaf.arrays, leaf.offset, leaf.pointCount, n);
    }
    if m in leaf.handles && n in leaf.handles {
      SlotsAreDistinct(leaf.names, leaf.handles, leaf.arrays, leaf.offset, leaf.pointCount, m, n);
    }
  }

  /** Whether a point is in a group: initially as the tree has it, later as the edits left it. */
  ghost predicate Member(name: string, index: nat, groupHandles: GroupHandles, leaf: PointLeafLocalData)
    requires Ready(groupHandles, leaf) && index < leaf.pointCount
    reads leaf, leaf.arrays, Footprint(groupHandles)
  {
    HandleFits(name, groupHandles, leaf);
    var handle := HandleOf(name, groupHandles, leaf);
    handle.Some? && handle.value.Get(index)
  }

  /**
  The kernel's query: without the tree's handles it answers no, even for groups created by an edit.
  */
  function InGroup(name: string, index: nat, groupHandles: GroupHandles, leaf: PointLeafLocalData): (member: bool)
    requires Ready(groupHandles, leaf) && index < leaf.pointCount
    reads leaf, leaf.arrays, Footprint(groupHandles)
    ensures member == (name != "" && groupHandles.Some? && Member(name, index, groupHandles, leaf))
  {
    if |name| == 0 then false
    else if groupHandles.None? then false
    else
      HandleFits(name, groupHandles, leaf);
      var handle := GroupHandleOf(name, groupHandles.value);
      if handle.Some? then handle.value.Get(index)
      else
        var created := leaf.Lookup(name);
        created.Some? && created.value.Get(index)
  }

  /** The handle through which an edit writes; a group that does not exist is created empty. */
  method HandleToEdit(name: string, groupHandles: GroupHandles, leaf: PointLeafLocalData)
    returns (handle: GroupHandle)
    requires Ready(groupHandles, leaf)
    modifies leaf`arrays, leaf`offset, leaf`handles, leaf`names
    ensures Ready(groupHandles, leaf) && HandleOf(name, groupHandles, leaf) == Some(handle)
    ensures old(leaf.arrays) <= leaf.arrays && forall a | |old(leaf.arrays)| <= a < |leaf.arrays| ::
      fresh(leaf.arrays[a])
    ensures forall n: string, i: nat | i < leaf.pointCount ::
              Member(n, i, groupHandles, leaf) == old(Member(n, i, groupHandles, leaf))
  {
    hide Layout;
    var found := if groupHandles.Some? then GroupHandleOf(name, groupHandles.value) else None;
    if found.Some? { return found.value; }
    handle := leaf.GetOrInsert(name);
    forall n: string, i: nat | i < leaf.pointCount
      ensures Member(n, i, groupHandles, leaf) == old(Member(n, i, groupHandles, leaf))
    {
      HandleFits(n, groupHandles, leaf);
      if n in old(leaf.handles) {
        InArrays(old(leaf.names), old(leaf.handles), old(leaf.arrays), old(leaf.offset), leaf.pointCount, n);
      }
    }
  }

  /** Writing through a group's handle changes the membership of one point in that group. */
  method PutMember(
    name: string, index: nat, groupHandles: GroupHandles, leaf: PointLeafLocalData, handle: GroupHandle, flag: bool)
    requires Ready(groupHandles, leaf) && index < leaf.pointCount
    requires HandleOf(name, groupHandles, leaf) == Some(handle)
    modifies handle.bits
    ensures Ready(groupHandles, leaf)
    ensures forall n: string, i: nat | i < leaf.pointCount :: Member(n, i, groupHandles, leaf) ==
              if n == name && i == index then flag else old(Member(n, i, groupHandles, leaf))
  {
    hide Layout;
    HandleFits(name, groupHandles, leaf);
    KeepsUnusedClear(name, groupHandles, leaf, handle);
    handle.Put(index, flag);
    forall n: string, i: nat | i < leaf.pointCount
      ensures Member(n, i, groupHandles, leaf) ==
                if n == name && i == index then flag else old(Member(n, i, groupHandles, leaf))
    {
      HandleFits(n, groupHandles, leaf);
      var other := HandleOf(n, groupHandles, leaf);
      if n != name && other.Some? {
        HandlesAreDistinct(name, n, groupHandles, leaf);
      }
    }
  }

  /** No group owns a bit that is still unused. */
  lemma KeepsUnusedClear(name: string, groupHandles: GroupHandles, leaf: PointLeafLocalData, handle: GroupHandle)
    requires Ready(groupHandles, leaf) && HandleOf(name, groupHandles, leaf) == Some(handle)
    ensures leaf.arrays != [] && handle.bits == leaf.arrays[|leaf.arrays| - 1] ==> handle.offset < leaf.offset
  {
    if name in leaf.handles && leaf.handles[name] == handle {
      var k :| 0 <= k < |leaf.names| && leaf.names[k] == name;
      assert HasSlot(leaf.handles, leaf.arrays, name, k);
      if leaf.arrays != [] && handle.bits == leaf.arrays[|leaf.arrays| - 1] {
        assert k / GROUP_BITS == |leaf.arrays| - 1;
      }
    }
  }

  /** The kernel's edit: exactly the membership of this point in this group changes. */
  method EditGroup(name: string, index: nat, groupHandles: GroupHandles, leaf: PointLeafLocalData, flag: bool)
    requires Ready(groupHandles, leaf) && index < leaf.pointCount
    modifies leaf`arrays, leaf`offset, leaf`handles, leaf`names, leaf.arrays, Footprint(groupHandles)
    ensures Ready(groupHandles, leaf)
    ensures old(leaf.arrays) <= leaf.arrays && forall a | |old(leaf.arrays)| <= a < |leaf.arrays| ::
      fresh(leaf.arrays[a])
    ensures forall n: string, i: nat | i < leaf.pointCount :: Member(n, i, groupHandles, leaf) ==
              if n == name && i == index && name != "" then flag else old(Member(n, i, groupHandles, leaf))
  {
    hide Layout, Ready, Member;
    if |name| == 0 { return; }
    var found := if groupHandles.Some? then GroupHandleOf(name, groupHandles.value) else None;
    if found.None? && !flag && !leaf.HasGroup(name) {
      NotAMember(name, index, groupHandles, leaf);
      return;
    }
    var handle := HandleToEdit(name, groupHandles, leaf);
    HandleFits(name, groupHandles, leaf);
    PutMember(name, index, groupHandles, leaf, handle, flag);
  }

  lemma NotAMember(name: string, index: nat, groupHandles: GroupHandles, leaf: PointLeafLocalData)
    requires Ready(groupHandles, leaf) && index < leaf.pointCount
    requires HandleOf(name, groupHandles, leaf).None?
    ensures !Member(name, index, groupHandles, leaf)
  {}

  datatype Edit = Edit(name: string, index: nat, flag: bool) {
    /** An edit without a group name does nothing. */
    predicate Hits(n: string, i: nat) {
      name == n && index == i && n != ""
    }
  }

  /** The membership that the last edit of a point in a group leaves, or the one there was at first. */
  ghost function LastEdit(edits: seq<Edit>, n: string, i: nat, initial: bool): (member: bool)
    ensures (forall e | e in edits :: !e.Hits(n, i)) ==> member == initial
    ensures forall k | 0 <= k < |edits| && edits[k].Hits(n, i) &&
              (forall later | k < later < |edits| :: !edits[later].Hits(n, i)) :: member == edits[k].flag
  {
    if edits == [] then initial
    else
      var last := |edits| - 1;
      if edits[last].Hits(n, i) then edits[last].flag else LastEdit(edits[..last], n, i, initial)
  }

  /** A kernel makes its edits one after another. */
  method MakeEdits(edits: seq<Edit>, groupHandles: GroupHandles, leaf: PointLeafLocalData)
    requires Ready(groupHandles, leaf)
    requires forall e | e in edits :: e.index < leaf.pointCount
    modifies leaf`arrays, leaf`offset, leaf`handles, leaf`names, leaf.arrays, Footprint(groupHandles)
    ensures Ready(groupHandles, leaf)
    ensures old(leaf.arrays) <= leaf.arrays && forall a | |old(leaf.arrays)| <= a < |leaf.arrays| ::
      fresh(leaf.arrays[a])
    ensures forall n: string, i: nat | i < leaf.pointCount :: Member(n, i, groupHandles, leaf) ==
              LastEdit(edits, n, i, old(Member(n, i, groupHandles, leaf)))
  {
    hide Ready, Member, Footprint;
    if edits != [] {
      var last := |edits| - 1;
      MakeEdits(edits[..last], groupHandles, leaf);
      var e := edits[last];
      assert e in edits;
      EditGroup(e.name, e.index, groupHandles, leaf, e.flag);
    }
  }

  /**
  Whatever edits a kernel makes, a query with live handles then reports the last edit of exactly
  that group and point, or the initial membership.
  */
  method EditsThenQuery(
    edits: seq<Edit>, name: string, index: nat, groupHandles: GroupHandles, leaf: PointLeafLocalData)
    returns (member: bool)
    requires Ready(groupHandles, leaf) && index < leaf.pointCount
    requires forall e | e in edits :: e.index < leaf.pointCount
    modifies leaf`arrays, leaf`offset, leaf`handles, leaf`names, leaf.arrays, Footprint(groupHandles)
    ensures Ready(groupHandles, leaf)
    ensures member == (name != "" && groupHandles.Some? &&
                       LastEdit(edits, name, index, old(Member(name, index, groupHandles, leaf))))
  {
    hide Ready, Member, Footprint, InGroup;
    MakeEdits(edits, groupHandles, leaf);
    member := InGroup(name, index, groupHandles, leaf);
  }

  /** A handle on a string attribute: its values, and the strings that the metadata already holds. */
  class StringAttributeHandle {
    const values: StringArray
    const known: set<string>

    constructor (values: StringArray, known: set<string>)
      ensures this.values == values && this.known == known
    {
      this.values := values;
      this.known := known;
    }

    predicate Contains(s: string) {
      s in known
    }

    function Get(index: nat): string
      requires index < |values.values|
      reads values
    {
      values.values[index]
    }

    method Put(index: nat, s: string)
      requires index < |values.values| && Contains(s)
      modifies values
      ensures values.values == old(values.values)[index := s]
    {
      values.values := values.values[index := s];
    }
  }

  /** The string a point has: the pending one if there is one, otherwise the stored one. */
  function StringAt(values: StringArray, index: nat, leaf: PointLeafLocalData): string
    requires index < |values.values|
    reads values, leaf
  {
    var pending := Pending(leaf.strings, values, index);
    if pending.Some? then pending.value else values.values[index]
  }

  /**
  Setting a string: stored at once when the metadata knows it, pending otherwise. Either way exactly
  this point of this attribute changes.
  */
  method SetAttribStr(handle: StringAttributeHandle, index: nat, value: string, leaf: PointLeafLocalData)
    requires leaf.Valid() && index < |handle.values.values|
    modifies handle.values, leaf`strings
    ensures leaf.Valid()
    ensures handle.values.values ==
              if handle.Contains(value) then old(handle.values.values)[index := value] else old(handle.values.values)
    ensures forall values: StringArray, i: nat | old(allocated(values)) && i < |values.values| ::
              StringAt(values, i, leaf) ==
                if values == handle.values && i == index then value else old(StringAt(values, i, leaf))
    ensures forall values: StringArray, i :: Pending(leaf.strings, values, i) ==
              if values != handle.values || i != index then Pending(old(leaf.strings), values, i)
              else if handle.Contains(value) then None
              else Some(value)
  {
    if handle.Contains(value) {
      handle.Put(index, value);
      leaf.RemoveNewStringData(handle.values, index);
    } else {
      leaf.SetNewStringData(handle.values, index, value);
    }
  }

  /** What a C string routine sees of a string: everything up to the first NUL character. */
  function CString(s: string): (c: string)
    ensures c <= s && '\0' !in c
    ensures |c| < |s| ==> s[|c|] == '\0'
  {
    if s == [] || s[0] == '\0' then [] else [s[0]] + CString(s[1..])
  }

  /** A string survives being copied as a C string exactly when it has no NUL character in it. */
  lemma CopiedWhole(s: string)
    ensures CString(s) == s <==> '\0' !in s
  {
    if CString(s) != s {
      assert s[|CString(s)|] == '\0';
    }
  }

  /** Reading a string into a buffer of the size that was asked for before. */
  method GetAttribStr(handle: StringAttributeHandle, index: nat, buffer: array<char>, leaf: PointLeafLocalData)
    requires index < |handle.values.values|
    requires buffer.Length == |StringAt(handle.values, index, leaf)| + 1
    modifies buffer
    ensures var text := CString(StringAt(handle.values, index, leaf));
            buffer[..|text| + 1] == text + ['\0'] && buffer[|text| + 1..] == old(buffer[..])[|text| + 1..]
    ensures '\0' !in StringAt(handle.values, index, leaf) ==>
              buffer[..] == StringAt(handle.values, index, leaf) + ['\0']
  {
    var data := leaf.GetNewStringData(handle.values, index);
    if data.None? {
      data := Some(handle.Get(index));
    }
    CopyString(buffer, data.value);
    CopiedWhole(data.value);
  }

  /** `strcpy`: characters up to and including the terminating NUL. */
  method CopyString(buffer: array<char>, s: string)
    requires |s| < buffer.Length
    modifies buffer
    ensures var text := CString(s);
            buffer[..|text| + 1] == text + ['\0'] && buffer[|text| + 1..] == old(buffer[..])[|text| + 1..]
  {
    var i := 0;
    while i < |s| && s[i] != '\0'
      invariant i <= |CString(s)|
      invariant buffer[..i] == s[..i]
      invariant forall j | i <= j < buffer.Length :: buffer[j] == old(buffer[j])
    {
      buffer[i] := s[i];
      i := i + 1;
    }
    buffer[i] := '\0';
    assert i == |CString(s)|;
  }

  /** The size that the kernel allocates before it reads a string. */
  method StrAttribSize(handle: StringAttributeHandle, index: nat, leaf: PointLeafLocalData) returns (size: nat)
    requires index < |handle.values.values|
    ensures size == |StringAt(handle.values, index, leaf)|
  {
    var data := leaf.GetNewStringData(handle.values, index);
    if data.None? {
      data := Some(handle.Get(index));
    }
    size := |data.value|;
  }

  /** One call that sets a string. */
  datatype StringSet = StringSet(handle: StringAttributeHandle, index: nat, value: string) {
    predicate Hits(values: StringArray, i: nat) {
      handle.values == values && index == i
    }
  }

  ghost predicate InRange(sets: seq<StringSet>)
    reads set e | e in sets :: e.handle.values
  {
    forall e | e in sets :: e.index < |e.handle.values.values|
  }

  /** What the last set of a point of an array gave it, or the string it had at first. */
  ghost function LastSet(sets: seq<StringSet>, values: StringArray, i: nat, initial: string): (text: string)
    ensures (forall e | e in sets :: !e.Hits(values, i)) ==> text == initial
    ensures forall k | 0 <= k < |sets| && sets[k].Hits(values, i) &&
              (forall later | k < later < |sets| :: !sets[later].Hits(values, i)) :: text == sets[k].value
  {
    if sets == [] then initial
    else
      var last := |sets| - 1;
      if sets[last].Hits(values, i) then sets[last].value else LastSet(sets[..last], values, i, initial)
  }

  /** The string that the array itself holds after some sets: the last one its metadata knew. */
  ghost function LastStored(sets: seq<StringSet>, values: StringArray, i: nat, initial: string): string {
    LastSet(Known(sets), values, i, initial)
  }

  /** The sets whose strings the metadata of their arrays hold. */
  ghost function Known(sets: seq<StringSet>): seq<StringSet> {
    if sets == [] then []
    else
      var last := |sets| - 1;
      Known(sets[..last]) + if sets[last].handle.Contains(sets[last].value) then [sets[last]] else []
  }

  /** What is pending after some sets: the last one, unless the metadata knew it. */
  ghost function LastPending(sets: seq<StringSet>, values: StringArray, i: nat, initial: Option<string>): Option<string>
  {
    if sets == [] then initial
    else
      var e := sets[|sets| - 1];
      if !e.Hits(values, i) then LastPending(sets[..|sets| - 1], values, i, initial)
      else if e.handle.Contains(e.value) then None
      else Some(e.value)
  }

  lemma LastStoredStep(sets: seq<StringSet>, values: StringArray, i: nat, initial: string)
    requires sets != []
    ensures var e := sets[|sets| - 1];
            LastStored(sets, values, i, initial) ==
              if e.Hits(values, i) && e.handle.Contains(e.value) then e.value
              else LastStored(sets[..|sets| - 1], values, i, initial)
  {
    var before := Known(sets[..|sets| - 1]);
    var e := sets[|sets| - 1];
    assert (before + [e])[..|before|] == before;
    assert before + [] == before;
  }

  /** A pending string hides the stored one; together they are the last string set, by either route. */
  lemma {:induction false} RoutesAgree(sets: seq<StringSet>, values: StringArray, i: nat, stored: string,
      pending: Option<string>)
    ensures var now := LastPending(sets, values, i, pending);
            LastSet(sets, values, i, if pending.Some? then pending.value else stored) ==
              if now.Some? then now.value else LastStored(sets, values, i, stored)
  {
    if sets != [] {
      RoutesAgree(sets[..|sets| - 1], values, i, stored, pending);
      LastStoredStep(sets, values, i, stored);
    }
  }

  /**
  A kernel sets its strings one after another, through any handles. What is stored and what is pending
  is known for every point of every array, and so is what is read.
  */
  method MakeSets(sets: seq<StringSet>, leaf: PointLeafLocalData)
    requires leaf.Valid() && InRange(sets)
    modifies leaf`strings, set e | e in sets :: e.handle.values
    ensures leaf.Valid() && InRange(sets)
    ensures forall values: StringArray | old(allocated(values)) :: |values.values| == |old(values.values)|
    ensures forall values: StringArray, i: nat | old(allocated(values)) && i < |values.values| ::
              values.values[i] == LastStored(sets, values, i, old(values.values[i])) &&
              Pending(leaf.strings, values, i) == LastPending(sets, values, i, Pending(old(leaf.strings), values, i))
    ensures forall values: StringArray, i: nat | old(allocated(values)) && i < |values.values| ::
              StringAt(values, i, leaf) == LastSet(sets, values, i, old(StringAt(values, i, leaf)))
  {
    hide LastSet, LastStored;
    if sets != [] {
      var last := |sets| - 1;
      var e := sets[last];
      assert e in sets;
      MakeSets(sets[..last], leaf);
      SetAttribStr(e.handle, e.index, e.value, leaf);
    }
    forall values: StringArray, i: nat | old(allocated(values)) && i < |values.values|
      ensures values.values[i] == LastStored(sets, values, i, old(values.values[i])) &&
              Pending(leaf.strings, values, i) == LastPending(sets, values, i, Pending(old(leaf.strings), values, i))
    {
      if sets != [] { LastStoredStep(sets, values, i, old(values.values[i])); } else { NothingStored(values, i); }
    }
    forall values: StringArray, i: nat | old(allocated(values)) && i < |values.values|
      ensures StringAt(values, i, leaf) == LastSet(sets, values, i, old(StringAt(values, i, leaf)))
    {
      RoutesAgree(sets, values, i, old(values.values[i]), Pending(old(leaf.strings), values, i));
    }
  }

  lemma NothingStored(values: StringArray, i: nat)
    ensures forall initial: string :: LastStored([], values, i, initial) == initial
  {}

  /** What comes in front of a NUL character is all that a C string routine sees. */
  lemma {:induction false} CStringEnds(c: string, rest: string)
    requires '\0' !in c
    ensures CString(c + ['\0'] + rest) == c
  {
    var s := c + ['\0'] + rest;
    if c == [] {
      assert s[0] == '\0';
    } else {
      assert s[1..] == c[1..] + ['\0'] + rest;
      CStringEnds(c[1..], rest);
    }
  }

  /**
  A kernel that sets strings and then reads one as generated code does: it asks for the size, allocates
  that much and one character more, and fetches the string. The size is the length of the string last set,
  and the text read is that string up to its first NUL; the size is the length of the text read exactly
  when the string has no NUL in it.
  */
  method SetsThenRead(sets: seq<StringSet>, handle: StringAttributeHandle, index: nat, leaf: PointLeafLocalData)
    returns (size: nat, buffer: array<char>)
    requires leaf.Valid() && InRange(sets) && index < |handle.values.values|
    modifies leaf`strings, set e | e in sets :: e.handle.values
    ensures var text := LastSet(sets, handle.values, index, old(StringAt(handle.values, index, leaf)));
            && size == |text| && buffer.Length == size + 1
            && CString(buffer[..]) == CString(text)
            && (size == |CString(buffer[..])| <==> '\0' !in text)
            && ('\0' !in text ==> buffer[..] == text + ['\0'])
  {
    hide LastSet, LastStored, LastPending;
    MakeSets(sets, leaf);
    size := StrAttribSize(handle, index, leaf);
    buffer := new char[size + 1];
    GetAttribStr(handle, index, buffer, leaf);
    ghost var text := CString(StringAt(handle.values, index, leaf));
    CopiedWhole(StringAt(handle.values, index, leaf));
    CStringEnds(text, buffer[|text| + 1..]);
    assert buffer[..] == text + ['\0'] + buffer[|text| + 1..];
  }
}
