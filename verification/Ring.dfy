/** The log view's bounded buffer (internal/ui/ringbuffer.go): a circular array of lines,
    oldest first. The source keeps the four parts of a line in four parallel arrays that
    are always written at the same slot; here they are one array of records. */
module Ring {
  import opened Ansi
  import opened Windows

  /** One stored line: as received, decorated, stripped of escapes, and its width. */
  datatype Entry = Entry(raw: string, colored: seq<Token>, stripped: string, width: nat)

  const NoEntry := Entry("", [], "", 0)

  /** What a bounded buffer holds, whatever its representation. */
  datatype Buffer = Buffer(lines: seq<Entry>, capacity: int, dropped: nat) {
    predicate Valid() { 1 <= capacity && |lines| <= capacity }

    predicate Full() { |lines| == capacity }

    /** Adds a line; a full buffer loses its oldest one and counts it as dropped. */
    function Push(e: Entry): (b: Buffer)
      requires Valid()
      ensures b.Valid() && b.capacity == capacity
      ensures Full() ==> |lines| > 0
    {
      if Full() then Buffer(lines[1..] + [e], capacity, dropped + 1)
      else Buffer(lines + [e], capacity, dropped)
    }

    /** The line at logical index `i`, or the empty one out of range. */
    function Get(i: int): (e: Entry)
      ensures 0 <= i < |lines| ==> e == lines[i]
    {
      if 0 <= i < |lines| then lines[i] else NoEntry
    }
  }

  function EmptyBuffer(capacity: int): (b: Buffer)
    ensures b.Valid() && b.lines == [] && b.dropped == 0
  {
    Buffer([], if capacity < 1 then 1 else capacity, 0)
  }

  function Pushed(b: Buffer, es: seq<Entry>): (r: Buffer)
    requires b.Valid()
    ensures r.Valid() && r.capacity == b.capacity
    decreases |es|
  {
    if es == [] then b else Pushed(b.Push(es[0]), es[1..])
  }

  /** Main result on the buffer: of all lines it was given it holds the last ones, in order, as
      many as it has room for, and it has counted the others. */
  lemma {:induction false} KeepsTheLast(b: Buffer, es: seq<Entry>)
    requires b.Valid()
    ensures var r, all := Pushed(b, es), b.lines + es;
            var gone := if |all| > b.capacity then |all| - b.capacity else 0;
            r.lines == all[gone..] && r.dropped == b.dropped + gone
    decreases |es|
  {
    if es == [] {
      assert b.lines + es == b.lines;
    } else {
      KeepsTheLast(b.Push(es[0]), es[1..]);
      assert b.lines + es == (b.lines + [es[0]]) + es[1..];
      if b.Full() {
        assert b.Push(es[0]).lines + es[1..] == (b.lines + es)[1..];
      }
    }
  }

  /** The array slot of logical index `i`. */
  function PhysIdx(head: int, count: int, capacity: int, i: int): (p: int)
    requires 1 <= capacity && 0 <= head < capacity && 0 <= i < count <= capacity
    ensures p == if head - count + i < 0 then head - count + i + capacity else head - count + i
  {
    ModOnce(head - count + capacity + i, capacity);
    (head - count + capacity + i) % capacity
  }

  /** Writing at `head` of a buffer that still has room leaves the stored lines where
      they are and puts the new one last. */
  lemma AdvanceWithRoom(head: int, head': int, count: int, capacity: int)
    requires 0 <= head < capacity && 0 <= count < capacity
    requires head' == if head + 1 < capacity then head + 1 else 0
    ensures forall i {:trigger PhysIdx(head', count + 1, capacity, i)} :: 0 <= i < count ==>
              && PhysIdx(head', count + 1, capacity, i) == PhysIdx(head, count, capacity, i)
              && PhysIdx(head, count, capacity, i) != head
    ensures PhysIdx(head', count + 1, capacity, count) == head
  {
    hide PhysIdx;
    forall i {:trigger PhysIdx(head', count + 1, capacity, i)} | 0 <= i < count
      ensures PhysIdx(head', count + 1, capacity, i) == PhysIdx(head, count, capacity, i)
      ensures PhysIdx(head, count, capacity, i) != head
    {
    }
    assert PhysIdx(head', count + 1, capacity, count) == head;
  }

  /** Writing at `head` of a full buffer replaces the oldest line and moves the others up. */
  lemma AdvanceFull(head: int, head': int, capacity: int)
    requires 0 <= head < capacity
    requires head' == if head + 1 < capacity then head + 1 else 0
    ensures forall i {:trigger PhysIdx(head', capacity, capacity, i)} :: 0 <= i < capacity - 1 ==>
              && PhysIdx(head', capacity, capacity, i) == PhysIdx(head, capacity, capacity, i + 1)
              && PhysIdx(head, capacity, capacity, i + 1) != head
    ensures PhysIdx(head', capacity, capacity, capacity - 1) == head
  {
    hide PhysIdx;
    forall i {:trigger PhysIdx(head', capacity, capacity, i)} | 0 <= i < capacity - 1
      ensures PhysIdx(head', capacity, capacity, i) == PhysIdx(head, capacity, capacity, i + 1)
      ensures PhysIdx(head, capacity, capacity, i + 1) != head
    {
    }
    assert PhysIdx(head', capacity, capacity, capacity - 1) == head;
  }

  /** The lines a circular array holds, oldest first. */
  function Stored(data: seq<Entry>, head: int, count: int): (es: seq<Entry>)
    requires 0 <= head < |data| && 0 <= count <= |data|
    ensures |es| == count
    ensures forall i {:trigger es[i]} :: 0 <= i < count ==> es[i] == data[PhysIdx(head, count, |data|, i)]
  {
    seq(count, i requires 0 <= i < count => data[PhysIdx(head, count, |data|, i)])
  }

  lemma StoredAppend(data: seq<Entry>, head: int, head': int, count: int, e: Entry)
    requires 0 <= head < |data| && 0 <= count <= |data|
    requires head' == if head + 1 < |data| then head + 1 else 0
    ensures var es := Stored(data, head, count);
            var full := count == |data|;
            Stored(data[head := e], head', if full then count else count + 1) == (if full then es[1..] else es) + [e]
  {
    hide PhysIdx;
    if count == |data| {
      AdvanceFull(head, head', |data|);
    } else {
      AdvanceWithRoom(head, head', count, |data|);
    }
  }

  lemma StoredUpdate(data: seq<Entry>, head: int, count: int, i: int, e: Entry)
    requires 0 <= head < |data| && 0 <= i < count <= |data|
    ensures Stored(data[PhysIdx(head, count, |data|, i) := e], head, count) == Stored(data, head, count)[i := e]
  {
  }

  class DualRingBuffer {
    const data: array<Entry>
    const capacity: int
    var head: int
    var count: int
    var dropped: nat
    ghost var value: Buffer

    ghost function Repr(): set<object> { {this, data} }

    ghost predicate Valid()
      reads Repr()
    {
      && 1 <= capacity == data.Length
      && 0 <= head < capacity && 0 <= count <= capacity
      && value == Buffer(Stored(data[..], head, count), capacity, dropped)
    }

    constructor (bufCapacity: int)
      ensures Valid() && fresh(Repr())
      ensures value == EmptyBuffer(bufCapacity)
    {
      var cap := if bufCapacity < 1 then 1 else bufCapacity;
      data := new Entry[cap](_ => NoEntry);
      capacity := cap;
      head, count, dropped := 0, 0, 0;
      value := EmptyBuffer(bufCapacity);
    }

    method Append(raw: string, colored: seq<Token>, stripped: string, rawWidth: nat)
      requires Valid()
      modifies Repr()
      ensures Valid() && old(value).Valid()
      ensures value == old(value).Push(Entry(raw, colored, stripped, rawWidth))
    {
      hide Stored, PhysIdx;
      if count == capacity {
        dropped := dropped + 1;
      }
      var e := Entry(raw, colored, stripped, rawWidth);
      ModOnce(head + 1, capacity);
      StoredAppend(data[..], head, (head + 1) % capacity, count, e);
      value := value.Push(e);
      data[head] := e;
      head := (head + 1) % capacity;
      if count < capacity {
        count := count + 1;
      }
    }

    function Get(i: int): (e: Entry)
      requires Valid()
      reads Repr()
      ensures e == value.Get(i)
    {
      if i < 0 || i >= count then NoEntry else data[PhysIdx(head, count, capacity, i)]
    }

    /** SetColored and SetStripped: replaces the decorated form of a stored line. */
    method SetDecorated(i: int, colored: seq<Token>, width: nat, stripped: string)
      requires Valid()
      modifies Repr()
      ensures Valid() && value.capacity == old(value).capacity && value.dropped == old(value).dropped
      ensures var es := old(value).lines;
              value.lines == if 0 <= i < |es| then es[i := Entry(es[i].raw, colored, stripped, width)] else es
    {
      if i < 0 || i >= count {
        return;
      }
      var idx := PhysIdx(head, count, capacity, i);
      var e := Entry(data[idx].raw, colored, stripped, width);
      StoredUpdate(data[..], head, count, i, e);
      data[idx] := e;
      value := value.(lines := value.lines[i := e]);
    }

    method Reset()
      requires Valid()
      modifies Repr()
      ensures Valid() && value == EmptyBuffer(capacity)
    {
      forall i | 0 <= i < capacity { data[i] := NoEntry; }
      head, count, dropped := 0, 0, 0;
      value := EmptyBuffer(capacity);
    }

    /** ColoredSlice and WidthSlice: logical range [start, end), copied in at most two
        runs because the range may wrap around the end of the array. */
    method Slice(start: int, end: int) returns (es: seq<Entry>)
      requires Valid()
      ensures var lo := if start < 0 then 0 else start;
              var hi := if end > |value.lines| then |value.lines| else end;
              es == if lo < hi then value.lines[lo..hi] else []
    {
      var lo := if start < 0 then 0 else start;
      var hi := if end > count then count else end;
      if lo >= hi {
        return [];
      }
      hide Stored, PhysIdx;
      var n := hi - lo;
      var physStart := PhysIdx(head, count, capacity, lo);
      if physStart + n <= capacity {
        es := data[physStart..physStart + n];
      } else {
        es := data[physStart..] + data[..n - (capacity - physStart)];
      }
      forall i | 0 <= i < n
        ensures es[i] == value.lines[lo..hi][i]
      {
        assert value.lines[lo + i] == data[PhysIdx(head, count, capacity, lo + i)];
      }
    }
  }
}
