/** The intrusive queues of libc/list.c and kernel/process.c: the three lists of the scheduler run
    through the one `next` field of the process slots. */
module ProcessLists {
  import opened Bits
  import opened Wrappers

  const PROCESSES := 10
  const MAX_FILES := 100

  datatype ProcState = Unused | Initialized | Ready | Running | Sleeping | Killed

  /** A `List *`: NULL, a process, or the header of a list, which is a node as far as `next` goes. */
  datatype Ptr = Null | Slot(slot: nat) | Header(list: nat)

  datatype Process = Process(next: Ptr, pid: int, waitId: int, state: ProcState, pageMap: Word, stack: Word,
      file: seq<Option<nat>>)

  datatype HeadList = HeadList(next: Ptr, tail: Ptr)

  const READY := 0
  const WAIT := 1
  const KILL := 2

  function NoFiles(): seq<Option<nat>> { seq(MAX_FILES, _ => None) }

  /** A slot after memset(proc, 0, sizeof(Process)). */
  function ZeroProcess(): Process { Process(Null, 0, 0, Unused, 0, 0, NoFiles()) }

  function NodeAt(q: seq<nat>, i: int): Ptr {
    if 0 <= i < |q| then Slot(q[i]) else Null
  }

  ghost predicate Distinct(q: seq<nat>) { forall i, j :: 0 <= i < j < |q| ==> q[i] != q[j] }

  ghost predicate NextOk(slots: seq<Process>, q: seq<nat>, i: nat) {
    i < |q| ==> q[i] < |slots| && slots[q[i]].next == NodeAt(q, i + 1)
  }

  /** The list with this header holds exactly the slots of `q`, in order, and `tail` is its last node. */
  ghost predicate ListOk(slots: seq<Process>, head: HeadList, q: seq<nat>) {
    && head.next == NodeAt(q, 0)
    && head.tail == NodeAt(q, |q| - 1)
    && (forall i: nat :: NextOk(slots, q, i))
    && Distinct(q)
  }

  ghost predicate Apart(q: seq<nat>, r: seq<nat>) { forall x: nat :: x in q ==> x !in r }

  ghost predicate ListsOk(slots: seq<Process>, heads: seq<HeadList>, queues: seq<seq<nat>>) {
    && |heads| == 3 && |queues| == 3 && |slots| == PROCESSES
    && (forall l: nat :: l < 3 ==> ListOk(slots, heads[l], queues[l]))
    && Apart(queues[READY], queues[WAIT]) && Apart(queues[READY], queues[KILL]) && Apart(queues[WAIT], queues[KILL])
  }

  ghost predicate InNoQueue(queues: seq<seq<nat>>, item: nat)
    requires |queues| == 3
  {
    item !in queues[READY] && item !in queues[WAIT] && item !in queues[KILL]
  }

  /** Nothing but `next` fields differs. */
  ghost predicate OnlyNext(a: seq<Process>, b: seq<Process>) {
    |a| == |b| && forall i :: 0 <= i < |a| ==> b[i] == a[i].(next := b[i].next)
  }

  /** A list is kept while its own nodes keep their links. */
  lemma ListFrame(a: seq<Process>, b: seq<Process>, head: HeadList, q: seq<nat>)
    requires ListOk(a, head, q) && |a| == |b| && forall i: nat :: i < |a| && i in q ==> b[i].next == a[i].next
    ensures ListOk(b, head, q)
  {
    forall i: nat ensures NextOk(b, q, i) { assert NextOk(a, q, i); }
  }

  function Removed(q: seq<nat>, k: nat): seq<nat>
    requires k < |q|
  {
    q[..k] + q[k + 1..]
  }

  /** Appending at the tail. */
  lemma PushKeeps(a: seq<Process>, head: HeadList, q: seq<nat>, item: nat, b: seq<Process>, head': HeadList)
    requires ListOk(a, head, q) && item < |a| && item !in q && |b| == |a|
    requires b[item].next == Null
      && (forall i: nat :: i < |a| && i in q && Slot(i) != head.tail ==> b[i].next == a[i].next)
    requires q != [] ==> head.tail.Slot? && head.tail.slot < |a| && b[head.tail.slot].next == Slot(item)
    requires head' == HeadList(if q == [] then Slot(item) else head.next, Slot(item))
    ensures ListOk(b, head', q + [item])
  {
    var r := q + [item];
    forall i: nat ensures NextOk(b, r, i) {
      assert NextOk(a, q, i);
      if i < |q| - 1 { assert q[i] in q && q[i] != q[|q| - 1]; }
    }
  }

  /** Unlinking the node at position `k`, with `prev` patched and the tail corrected. */
  lemma RemoveKeeps(a: seq<Process>, head: HeadList, q: seq<nat>, k: nat, b: seq<Process>, head': HeadList)
    requires ListOk(a, head, q) && k < |q| && |b| == |a|
    requires k > 0 ==> q[k - 1] < |b| && b[q[k - 1]].next == NodeAt(q, k + 1)
    requires forall i: nat :: i < |a| && i in q && (k > 0 ==> i != q[k - 1]) ==> b[i].next == a[i].next
    requires head'.next == if k == 0 then NodeAt(q, 1) else head.next
    requires head'.tail == if |q| == 1 then Null else if k == |q| - 1 then Slot(q[k - 1]) else head.tail
    ensures ListOk(b, head', Removed(q, k))
  {
    var r := Removed(q, k);
    forall i: nat ensures NextOk(b, r, i) {
      if i < |r| {
        var j := if i < k then i else i + 1;
        assert r[i] == q[j] && q[j] in q;
        assert NextOk(a, q, j);
      }
    }
    assert Distinct(r);
  }

  class ProcessTable {
    const slots: array<Process>
    const heads: array<HeadList>
    ghost var queues: seq<seq<nat>>

    ghost predicate Valid()
      reads this, slots, heads
    {
      ListsOk(slots[..], heads[..], queues)
    }

    constructor ()
      ensures Valid() && fresh(slots) && fresh(heads) && queues == [[], [], []]
      ensures slots.Length == PROCESSES && forall i :: 0 <= i < PROCESSES ==> slots[i] == ZeroProcess()
    {
      slots := new Process[PROCESSES](_ => ZeroProcess());
      heads := new HeadList[3](_ => HeadList(Null, Null));
      queues := [[], [], []];
    }

    predicate ListIsEmpty(l: nat)
      requires l < heads.Length
      reads heads
    {
      heads[l].next == Null
    }

    method SetNext(node: Ptr, next: Ptr)
      requires node.Slot? ==> node.slot < slots.Length
      requires node.Header? ==> node.list < heads.Length
      modifies slots, heads
      ensures slots[..] == if node.Slot? then old(slots[..])[node.slot := old(slots[..])[node.slot].(next := next)]
        else old(slots[..])
      ensures heads[..] == if node.Header? then old(heads[..])[node.list := old(heads[..])[node.list].(next := next)]
        else old(heads[..])
    {
      match node {
        case Slot(i) => slots[i] := slots[i].(next := next);
        case Header(l) => heads[l] := heads[l].(next := next);
        case Null =>
      }
    }

    /** Change a slot without touching its link. */
    method Update(i: nat, p: Process)
      requires Valid() && i < PROCESSES && p.next == slots[i].next
      modifies slots
      ensures Valid() && slots[..] == old(slots[..])[i := p]
    {
      ghost var a := slots[..];
      slots[i] := p;
      forall l: nat | l < 3 ensures ListOk(slots[..], heads[l], queues[l]) {
        ListFrame(a, slots[..], heads[l], queues[l]);
      }
    }

    /** memset of a slot to zero. */
    method ClearSlot(i: nat)
      requires Valid() && i < PROCESSES && InNoQueue(queues, i)
      modifies slots
      ensures Valid() && slots[..] == old(slots[..])[i := ZeroProcess()]
    {
      ghost var a := slots[..];
      slots[i] := ZeroProcess();
      forall l: nat | l < 3 ensures ListOk(slots[..], heads[l], queues[l]) {
        ListFrame(a, slots[..], heads[l], queues[l]);
      }
    }

    method ListPushBack(l: nat, item: nat)
      requires Valid() && l < 3 && item < PROCESSES && InNoQueue(queues, item)
      modifies slots, heads, this`queues
      ensures Valid() && queues == old(queues)[l := old(queues)[l] + [item]]
      ensures OnlyNext(old(slots[..]), slots[..])
    {
      ghost var a, h := slots[..], heads[..];
      TailInList(a, heads[l], queues[l]);
      SetNext(Slot(item), Null);
      assert OnlyNext(a, slots[..]);
      if ListIsEmpty(l) {
        heads[l] := HeadList(Slot(item), Slot(item));
      } else {
        SetNext(heads[l].tail, Slot(item));
        assert OnlyNext(a, slots[..]);
        heads[l] := heads[l].(tail := Slot(item));
      }
      PushKeeps(a, h[l], queues[l], item, slots[..], heads[l]);
      OthersKept(a, h, queues, l, slots[..]);
      queues := queues[l := queues[l] + [item]];
    }

    method ListPopFront(l: nat) returns (item: Ptr)
      requires Valid() && l < 3
      modifies heads, this`queues
      ensures Valid()
      ensures old(queues)[l] == [] ==> item == Null && queues == old(queues)
      ensures old(queues)[l] != [] ==> item == Slot(old(queues)[l][0]) && item.slot < PROCESSES
      ensures old(queues)[l] != [] ==> queues == old(queues)[l := old(queues)[l][1..]]
    {
      if ListIsEmpty(l) {
        return Null;
      }
      ghost var h, q := heads[..], queues[l];
      assert NextOk(slots[..], q, 0);
      item := heads[l].next;
      heads[l] := heads[l].(next := slots[item.slot].next);
      if heads[l].next == Null {
        heads[l] := heads[l].(tail := Null);
      }
      RemoveKeeps(slots[..], h[l], q, 0, slots[..], heads[l]);
      assert Removed(q, 0) == q[1..];
      queues := queues[l := q[1..]];
    }

    /** Take `current` out of the list: `prev` may be the header, but is stored as the tail only when
        a node is left, and then it is that node. */
    method Unlink(l: nat, current: Ptr, prev: Ptr, ghost k: nat)
      requires Valid() && l < 3 && k < |queues[l]| && current == NodeAt(queues[l], k)
      requires prev == if k == 0 then Header(l) else Slot(queues[l][k - 1])
      modifies slots, heads, this`queues
      ensures Valid() && OnlyNext(old(slots[..]), slots[..])
      ensures queues == old(queues)[l := Removed(old(queues)[l], k)]
    {
      ghost var a, h, q := slots[..], heads[..], queues[l];
      assert NextOk(a, q, k) && (k > 0 ==> NextOk(a, q, k - 1));
      var next := slots[current.slot].next;
      SetNext(prev, next);
      ghost var b := slots[..];
      assert b == if k == 0 then a else a[q[k - 1] := a[q[k - 1]].(next := next)];
      assert slots[current.slot].next == next;
      if heads[l].next == Null {
        heads[l] := heads[l].(tail := Null);
      } else if slots[current.slot].next == Null {
        heads[l] := heads[l].(tail := prev);
      }
      assert heads[..] == h[l := heads[l]];
      RemoveKeepsLists(a, h, queues, l, k, b, heads[l]);
      queues := queues[l := Removed(q, k)];
    }

    /** Remove the first process of the list with this pid, or with this wait id: the walk with `prev`
        of RemoveProcessWithPID and WaitListRemoveReadyProcess. `k` is its position. */
    method RemoveFirst(l: nat, key: Key) returns (item: Ptr, ghost k: nat)
      requires Valid() && l < 3
      modifies slots, heads, this`queues
      ensures Valid() && OnlyNext(old(slots[..]), slots[..])
      ensures k == FirstMatch(old(slots[..]), old(queues)[l], key)
      ensures k == |old(queues)[l]| ==> item == Null && queues == old(queues)
      ensures k < |old(queues)[l]| ==> item == Slot(old(queues)[l][k]) && item.slot < PROCESSES
      ensures k < |old(queues)[l]| ==> queues == old(queues)[l := Removed(old(queues)[l], k)]
    {
      ghost var a, h, q := slots[..], heads[..], queues[l];
      var current, prev := heads[l].next, Header(l);
      k := 0;
      FirstMatchFrom(a, q, key, 0);
      while current != Null
        invariant slots[..] == a && heads[..] == h && queues == old(queues) && k <= |q|
        invariant current == NodeAt(q, k) && prev == if k == 0 then Header(l) else Slot(q[k - 1])
        invariant FirstMatch(a, q, key) == k + FirstMatch(a, q[k..], key)
        decreases |q| - k
      {
        assert NextOk(a, q, k) && (k > 0 ==> NextOk(a, q, k - 1));
        FirstMatchFrom(a, q, key, k);
        if Matches(slots[current.slot], key) {
          Unlink(l, current, prev, k);
          return current, k;
        }
        prev := current;
        current := slots[current.slot].next;
        k := k + 1;
      }
      return Null, k;
    }
  }

  lemma TailInList(slots: seq<Process>, head: HeadList, q: seq<nat>)
    requires ListOk(slots, head, q)
    ensures q != [] ==> head.tail == Slot(q[|q| - 1]) && q[|q| - 1] < |slots|
  {
    if q != [] { assert NextOk(slots, q, |q| - 1); }
  }

  /** What a removal looks for. */
  datatype Key = ByPid(pid: int) | ByWaitId(id: int)

  predicate Matches(p: Process, key: Key) {
    match key
    case ByPid(pid) => p.pid == pid
    case ByWaitId(id) => p.waitId == id
  }

  /** The position of the first matching process, or the length of the queue. */
  ghost function FirstMatch(slots: seq<Process>, q: seq<nat>, key: Key): (k: nat)
    ensures k <= |q|
  {
    if q == [] || (q[0] < |slots| && Matches(slots[q[0]], key)) then 0 else 1 + FirstMatch(slots, q[1..], key)
  }

  lemma {:induction false} FirstMatchIsFirst(slots: seq<Process>, q: seq<nat>, key: Key)
    ensures var k := FirstMatch(slots, q, key);
      && (k < |q| && q[k] < |slots| ==> Matches(slots[q[k]], key))
      && (forall i :: 0 <= i < k && q[i] < |slots| ==> !Matches(slots[q[i]], key))
  {
    if q != [] { FirstMatchIsFirst(slots, q[1..], key); }
  }

  lemma FirstMatchFrom(slots: seq<Process>, q: seq<nat>, key: Key, k: nat)
    requires k <= |q|
    ensures q[0..] == q
    ensures k < |q| ==> q[k..][1..] == q[k + 1..]
    ensures k == |q| ==> FirstMatch(slots, q[k..], key) == 0
  {
  }

  /** Changing links of nodes outside the other lists keeps them. */
  lemma OthersKept(a: seq<Process>, heads: seq<HeadList>, queues: seq<seq<nat>>, l: nat, b: seq<Process>)
    requires ListsOk(a, heads, queues) && l < 3 && |b| == |a|
    requires forall i: nat :: i < |a| && i !in queues[l] && !InNoQueue(queues, i) ==> b[i].next == a[i].next
    ensures forall m: nat :: m < 3 && m != l ==> ListOk(b, heads[m], queues[m])
  {
    forall m: nat | m < 3 && m != l ensures ListOk(b, heads[m], queues[m]) {
      ListFrame(a, b, heads[m], queues[m]);
    }
  }

  lemma RemoveKeepsLists(a: seq<Process>, heads: seq<HeadList>, queues: seq<seq<nat>>, l: nat, k: nat, b: seq<Process>,
      head': HeadList)
    requires ListsOk(a, heads, queues) && l < 3 && k < |queues[l]|
    requires k > 0 ==> queues[l][k - 1] < |a|
    requires b == if k == 0 then a else a[queues[l][k - 1] := a[queues[l][k - 1]].(next := NodeAt(queues[l], k + 1))]
    requires head'.next == if k == 0 then NodeAt(queues[l], 1) else heads[l].next
    requires head'.tail ==
      if |queues[l]| == 1 then Null else if k == |queues[l]| - 1 then Slot(queues[l][k - 1]) else heads[l].tail
    ensures ListsOk(b, heads[l := head'], queues[l := Removed(queues[l], k)])
    ensures OnlyNext(a, b)
  {
    RemoveKeeps(a, heads[l], queues[l], k, b, head');
    OthersKept(a, heads, queues, l, b);
  }
}
