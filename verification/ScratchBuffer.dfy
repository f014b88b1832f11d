/** The scratch-buffer table of scratch_buffer.c: slots searched and updated in place, and the heap behind them.

  A buffer is named by its address; `live` is the set of blocks taken from the heap and not given back. */
module ScratchBuffer {
  import opened Bits
  import opened Wrappers

  const UNUSED: uint32 := 0xFFFF_FFFF

  datatype Slot = Slot(id: uint32, buffer: Option<nat>)

  // ------------------------------------------------------- what the table stands for

  /** Files that hold a slot, each with its buffer; the buffer is missing if its allocation failed. */
  function Files(t: seq<Slot>): map<uint32, Option<nat>> {
    if t == [] then map[]
    else
      var n := |t| - 1;
      if t[n].id == UNUSED then Files(t[..n]) else Files(t[..n])[t[n].id := t[n].buffer]
  }

  function Blocks(t: seq<Slot>): set<nat> {
    set i | 0 <= i < |t| && t[i].buffer.Some? :: t[i].buffer.value
  }

  predicate Apart(t: seq<Slot>) {
    forall i, j :: 0 <= i < j < |t| ==>
      && (t[i].id == t[j].id ==> t[i].id == UNUSED)
      && (t[i].buffer == t[j].buffer ==> t[i].buffer == None)
  }

  /** Ids in use differ, unused slots hold nothing, and the blocks in slots are exactly the live ones. */
  predicate Sound(t: seq<Slot>, live: set<nat>) {
    Apart(t) && (forall i :: 0 <= i < |t| && t[i].id == UNUSED ==> t[i].buffer == None) && Blocks(t) == live
  }

  lemma {:induction false} FilesHas(t: seq<Slot>, id: uint32)
    ensures id in Files(t) <==> id != UNUSED && exists k :: 0 <= k < |t| && t[k].id == id
  {
    if t != [] {
      var n := |t| - 1;
      FilesHas(t[..n], id);
      assert forall k :: 0 <= k < n ==> t[..n][k] == t[k];
    }
  }

  lemma {:induction false} FilesAt(t: seq<Slot>, k: nat)
    requires Apart(t) && k < |t| && t[k].id != UNUSED
    ensures t[k].id in Files(t) && Files(t)[t[k].id] == t[k].buffer
  {
    var n := |t| - 1;
    if k < n { FilesAt(t[..n], k); }
  }

  function Used(t: seq<Slot>): nat {
    if t == [] then 0 else Used(t[..|t| - 1]) + if t[|t| - 1].id == UNUSED then 0 else 1
  }

  /** As many files as slots in use. */
  lemma {:induction false} FilesCount(t: seq<Slot>)
    requires Apart(t)
    ensures |Files(t)| == Used(t)
  {
    if t != [] {
      FilesCount(t[..|t| - 1]);
      FilesHas(t[..|t| - 1], t[|t| - 1].id);
    }
  }

  lemma {:induction false} AllUsed(t: seq<Slot>)
    ensures Used(t) <= |t|
    ensures Used(t) == |t| <==> forall i :: 0 <= i < |t| ==> t[i].id != UNUSED
  {
    if t != [] {
      AllUsed(t[..|t| - 1]);
      assert forall i :: 0 <= i < |t| - 1 ==> t[..|t| - 1][i] == t[i];
    }
  }

  // ----------------------------------------------------------------- the operations

  /** First slot with this id, or the length of the table. */
  function Find(t: seq<Slot>, id: uint32): (k: nat)
    ensures k <= |t| && (k < |t| ==> t[k].id == id)
    ensures forall i :: 0 <= i < k ==> t[i].id != id
    decreases |t|
  {
    if t == [] then 0 else if t[0].id == id then 0 else 1 + Find(t[1..], id)
  }

  /** `block` is what the heap answers. */
  function Created(t: seq<Slot>, live: set<nat>, id: uint32, block: Option<nat>): (seq<Slot>, set<nat>, Option<nat>) {
    var free := Find(t, UNUSED);
    if Find(t, id) < |t| || free == |t| then (t, live, None)
    else (t[free := Slot(id, block)], if block.Some? then live + {block.value} else live, block)
  }

  function Removed(t: seq<Slot>, live: set<nat>, id: uint32): (seq<Slot>, set<nat>) {
    var k := Find(t, id);
    if k == |t| then (t, live)
    else (t[k := Slot(UNUSED, None)], if t[k].buffer.Some? then live - {t[k].buffer.value} else live)
  }

  /** Slots in use are emptied; what an unused slot may hold stays. */
  function Deinited(t: seq<Slot>): seq<Slot> {
    seq(|t|, i requires 0 <= i < |t| => if t[i].id == UNUSED then t[i] else Slot(UNUSED, None))
  }

  function BlocksInUse(t: seq<Slot>): set<nat> {
    set i | 0 <= i < |t| && t[i].id != UNUSED && t[i].buffer.Some? :: t[i].buffer.value
  }

  // ------------------------------------------------------------- agreement with a map

  lemma {:induction false} FilesFill(t: seq<Slot>, k: nat, id: uint32, block: Option<nat>)
    requires k < |t| && t[k].id == UNUSED && id != UNUSED && id !in Files(t)
    ensures Files(t[k := Slot(id, block)]) == Files(t)[id := block]
  {
    var n := |t| - 1;
    var u := t[k := Slot(id, block)];
    if k < n {
      FilesHas(t, id);
      FilesHas(t[..n], id);
      assert forall i :: 0 <= i < n ==> t[..n][i] == t[i];
      FilesFill(t[..n], k, id, block);
      assert u[..n] == t[..n][k := Slot(id, block)];
    } else {
      assert u[..n] == t[..n];
    }
  }

  lemma {:induction false} FilesDrop(t: seq<Slot>, k: nat)
    requires Apart(t) && k < |t| && t[k].id != UNUSED
    ensures Files(t[k := Slot(UNUSED, None)]) == Files(t) - {t[k].id}
  {
    var n := |t| - 1;
    var u := t[k := Slot(UNUSED, None)];
    if k < n {
      FilesDrop(t[..n], k);
      assert u[..n] == t[..n][k := Slot(UNUSED, None)];
    } else {
      assert u[..n] == t[..n];
      FilesHas(t[..n], t[n].id);
    }
  }

  /** Creation is refused, and nothing changes, for the reserved id, for a file that has a slot and for a full
      table; otherwise the file gets a slot, with whatever the heap answered. */
  lemma CreateIsInsert(t: seq<Slot>, live: set<nat>, id: uint32, block: Option<nat>)
    requires Sound(t, live) && (block.Some? ==> block.value !in live)
    ensures
      var (u, live', r) := Created(t, live, id, block);
      && Sound(u, live') && |u| == |t|
      && (if id == UNUSED || id in Files(t) || |Files(t)| == |t| then u == t && live' == live && r == None
          else Files(u) == Files(t)[id := block] && r == block)
  {
    FilesHas(t, id);
    FilesCount(t);
    AllUsed(t);
    var free := Find(t, UNUSED);
    if Find(t, id) == |t| && free < |t| {
      FilesFill(t, free, id, block);
      BlocksFill(t, free, Slot(id, block));
    }
  }

  lemma BlocksFill(t: seq<Slot>, k: nat, s: Slot)
    requires k < |t| && t[k].buffer == None
    ensures Blocks(t[k := s]) == Blocks(t) + if s.buffer.Some? then {s.buffer.value} else {}
  {
    var u := t[k := s];
    forall x | x in Blocks(t) ensures x in Blocks(u) {
      var i :| 0 <= i < |t| && t[i].buffer == Some(x);
      assert u[i].buffer == Some(x);
    }
    if s.buffer.Some? { assert u[k].buffer.value in Blocks(u); }
  }

  lemma BlocksDrop(t: seq<Slot>, k: nat)
    requires Apart(t) && k < |t|
    ensures Blocks(t[k := Slot(UNUSED, None)]) == Blocks(t) - if t[k].buffer.Some? then {t[k].buffer.value} else {}
  {
    var u := t[k := Slot(UNUSED, None)];
    forall x | x in Blocks(t) && Some(x) != t[k].buffer ensures x in Blocks(u) {
      var i :| 0 <= i < |t| && t[i].buffer == Some(x);
      assert u[i].buffer == Some(x);
    }
    forall x | x in Blocks(u) ensures x in Blocks(t) && Some(x) != t[k].buffer {
      var i :| 0 <= i < |u| && u[i].buffer == Some(x);
      assert i != k && t[i] == u[i];
    }
  }

  /** Removal gives back the block of the file and its slot; an id without a slot changes nothing. */
  lemma RemoveIsErase(t: seq<Slot>, live: set<nat>, id: uint32)
    requires Sound(t, live)
    ensures
      var (u, live') := Removed(t, live, id);
      && Sound(u, live') && |u| == |t| && Files(u) == Files(t) - {id}
      && live' == live - if id in Files(t) && Files(t)[id].Some? then {Files(t)[id].value} else {}
  {
    FilesHas(t, id);
    var k := Find(t, id);
    if k < |t| {
      BlocksDrop(t, k);
      if id == UNUSED { assert t[k := Slot(UNUSED, None)] == t; } else { FilesDrop(t, k); FilesAt(t, k); }
    }
  }

  lemma DeinitIsClear(t: seq<Slot>, live: set<nat>)
    requires Sound(t, live)
    ensures Deinited(t) == Empty(|t|) && live - BlocksInUse(t) == {}
    ensures Sound(Empty(|t|), {}) && Files(Empty(|t|)) == map[]
  {
    EmptyFiles(|t|);
    forall x | x in live ensures x in BlocksInUse(t) {
      var i :| 0 <= i < |t| && t[i].buffer == Some(x);
      assert t[i].id != UNUSED;
    }
  }

  // --------------------------------------------------------------------- whole runs

  datatype Op = Create(id: uint32, block: Option<nat>) | Remove(id: uint32) | Deinit

  function Empty(n: nat): seq<Slot> {
    seq(n, _ => Slot(UNUSED, None))
  }

  function Step(t: seq<Slot>, live: set<nat>, op: Op): (seq<Slot>, set<nat>) {
    match op
    case Create(id, block) => var (u, l, _) := Created(t, live, id, block); (u, l)
    case Remove(id) => Removed(t, live, id)
    case Deinit => (Deinited(t), live - BlocksInUse(t))
  }

  function Run(t: seq<Slot>, live: set<nat>, ops: seq<Op>): (seq<Slot>, set<nat>)
    decreases |ops|
  {
    if ops == [] then (t, live)
    else var (u, l) := Run(t, live, ops[..|ops| - 1]); Step(u, l, ops[|ops| - 1])
  }

  /** The same run on a map of at most `n` files. */
  function MapRun(n: nat, ops: seq<Op>): map<uint32, Option<nat>>
    decreases |ops|
  {
    if ops == [] then map[]
    else
      var m := MapRun(n, ops[..|ops| - 1]);
      match ops[|ops| - 1]
      case Create(id, block) => if id == UNUSED || id in m || |m| == n then m else m[id := block]
      case Remove(id) => m - {id}
      case Deinit => map[]
  }

  /** The heap never answers with a block that is live. */
  predicate HeapFresh(n: nat, ops: seq<Op>) {
    forall k :: 0 <= k < |ops| && ops[k].Create? && ops[k].block.Some? ==>
      ops[k].block.value !in Run(Empty(n), {}, ops[..k]).1
  }

  /** In every run from an empty table the table is the map, ids are distinct, and the blocks in its slots are
      exactly those the heap has given and not got back. */
  lemma {:induction false} TableIsMap(n: nat, ops: seq<Op>)
    requires HeapFresh(n, ops)
    ensures
      var (t, live) := Run(Empty(n), {}, ops);
      |t| == n && Sound(t, live) && Files(t) == MapRun(n, ops)
    decreases |ops|
  {
    if ops == [] { EmptyFiles(n); }
    else {
      hide Sound, Files, Created, Removed;
      var m := |ops| - 1;
      HeapFreshBefore(n, ops);
      TableIsMap(n, ops[..m]);
      var (t, live) := Run(Empty(n), {}, ops[..m]);
      match ops[m]
      case Create(id, block) => CreateIsInsert(t, live, id, block);
      case Remove(id) => RemoveIsErase(t, live, id);
      case Deinit => DeinitIsClear(t, live);
    }
  }

  lemma HeapFreshBefore(n: nat, ops: seq<Op>)
    requires ops != [] && HeapFresh(n, ops)
    ensures HeapFresh(n, ops[..|ops| - 1])
  {
    hide Run;
    var m := |ops| - 1;
    assert forall k :: 0 <= k < m ==> ops[..m][..k] == ops[..k] && ops[..m][k] == ops[k];
  }

  lemma {:induction false} EmptyFiles(n: nat)
    ensures Files(Empty(n)) == map[] && Sound(Empty(n), {})
  {
    if n > 0 {
      EmptyFiles(n - 1);
      assert Empty(n)[..n - 1] == Empty(n - 1);
    }
  }

  // ---------------------------------------------------------------- init on a used table

  /** scratch_buffer_init: ids only. */
  function Inited(t: seq<Slot>): seq<Slot> {
    seq(|t|, i requires 0 <= i < |t| => t[i].(id := UNUSED))
  }

  /** Init is sound exactly when nothing is live; else it hides blocks in slots that a creation may overwrite. */
  lemma InitSoundIff(t: seq<Slot>, live: set<nat>)
    requires Sound(t, live)
    ensures Sound(Inited(t), live) <==> live == {}
  {
    if live != {} {
      var x :| x in live;
      var i :| 0 <= i < |t| && t[i].buffer == Some(x);
      assert Inited(t)[i].buffer == Some(x);
    } else {
      forall i | 0 <= i < |t| ensures t[i].buffer == None {
        assert t[i].buffer.Some? ==> t[i].buffer.value in Blocks(t);
      }
    }
  }

  /** A slot in use, an init, a creation for another file: the first block is live and in no slot. */
  lemma InitLeaks(id: uint32, other: uint32, a: nat, b: nat)
    requires id != UNUSED && other != UNUSED && a != b
    ensures
      var t := [Slot(id, Some(a))];
      var (u, live, r) := Created(Inited(t), {a}, other, Some(b));
      Sound(t, {a}) && r == Some(b) && live == {a, b} && a !in Blocks(u)
  {
    var t := [Slot(id, Some(a))];
    assert t[0].buffer.value in Blocks(t);
    assert Inited(t) == [Slot(UNUSED, Some(a))];
  }

  // ------------------------------------------------------------------ the table itself

  class Table {
    const files: array<Slot>
    ghost var live: set<nat>

    /** Static storage: every field is zero, so every id is that of file 0 until init. */
    constructor (n: nat)
      ensures files.Length == n && fresh(files) && live == {}
      ensures files[..] == seq(n, _ => Slot(0, None))
    {
      files := new Slot[n](_ => Slot(0, None));
      live := {};
    }

    method Init()
      modifies files
      ensures files[..] == Inited(old(files[..]))
    {
      for i := 0 to files.Length
        invariant forall j :: 0 <= j < i ==> files[j] == old(files[j]).(id := UNUSED)
        invariant forall j :: i <= j < files.Length ==> files[j] == old(files[j])
      {
        files[i] := files[i].(id := UNUSED);
      }
    }

    method Search(id: uint32) returns (k: nat)
      ensures k == Find(files[..], id)
    {
      for i := 0 to files.Length
        invariant forall j :: 0 <= j < i ==> files[j].id != id
      {
        if files[i].id == id {
          FindFirst(files[..], id, i);
          return i;
        }
      }
      FindFirst(files[..], id, files.Length);
      return files.Length;
    }

    /** One pass looks for the first unused slot and for a slot the file already has. */
    method Create(id: uint32, block: Option<nat>) returns (r: Option<nat>)
      modifies this`live, files
      ensures (files[..], live, r) == Created(old(files[..]), old(live), id, block)
    {
      var free: nat := files.Length;
      for i := 0 to files.Length
        invariant free <= files.Length && files[..] == old(files[..]) && live == old(live)
        invariant forall j :: 0 <= j < i ==> files[j].id != id
        invariant if free < files.Length then files[free].id == UNUSED && free < i else forall j :: 0 <= j < i ==> files[j].id != UNUSED
        invariant forall j :: 0 <= j < free && j < i ==> files[j].id != UNUSED
      {
        if free == files.Length && files[i].id == UNUSED { free := i; }
        if files[i].id == id { return None; }
      }
      FindFirst(files[..], UNUSED, free);
      FindFirst(files[..], id, files.Length);
      if free == files.Length { return None; }
      files[free] := Slot(id, block);
      if block.Some? { live := live + {block.value}; }
      return block;
    }

    method Remove(id: uint32)
      modifies this`live, files
      ensures (files[..], live) == Removed(old(files[..]), old(live), id)
    {
      var k := Search(id);
      if k == files.Length { return; }
      if files[k].buffer.Some? { live := live - {files[k].buffer.value}; }
      files[k] := Slot(UNUSED, None);
    }

    method Deinit()
      modifies this`live, files
      ensures (files[..], live) == Step(old(files[..]), old(live), Op.Deinit)
    {
      for i := 0 to files.Length
        invariant forall j :: 0 <= j < i ==> files[j] == if old(files[j].id) == UNUSED then old(files[j]) else Slot(UNUSED, None)
        invariant forall j :: i <= j < files.Length ==> files[j] == old(files[j])
        invariant live == old(live) - BlocksInUse(old(files[..i]))
      {
        ghost var done := old(files[..i + 1]);
        assert done[..i] == old(files[..i]);
        BlocksInUseSnoc(done);
        if files[i].id != UNUSED {
          if files[i].buffer.Some? {
            live := live - {files[i].buffer.value};
            files[i] := files[i].(buffer := None);
          }
        }
        files[i] := files[i].(id := UNUSED);
      }
      assert old(files[..files.Length]) == old(files[..]) && files[..] == Deinited(old(files[..]));
    }
  }

  lemma {:induction false} FindFirst(t: seq<Slot>, id: uint32, k: nat)
    requires k <= |t| && (k < |t| ==> t[k].id == id)
    requires forall i :: 0 <= i < k && i < |t| ==> t[i].id != id
    ensures Find(t, id) == k
  {
  }

  lemma BlocksInUseSnoc(t: seq<Slot>)
    requires t != []
    ensures
      var n := |t| - 1;
      BlocksInUse(t) == BlocksInUse(t[..n]) + if t[n].id != UNUSED && t[n].buffer.Some? then {t[n].buffer.value} else {}
  {
    var n := |t| - 1;
    forall x | x in BlocksInUse(t[..n]) ensures x in BlocksInUse(t) {
      var i :| 0 <= i < n && t[..n][i].id != UNUSED && t[..n][i].buffer == Some(x);
      assert t[i].buffer == Some(x);
    }
    forall x | x in BlocksInUse(t) && (t[n].id == UNUSED || Some(x) != t[n].buffer) ensures x in BlocksInUse(t[..n]) {
      var i :| 0 <= i < |t| && t[i].id != UNUSED && t[i].buffer == Some(x);
      assert t[..n][i].buffer == Some(x);
    }
  }
}
