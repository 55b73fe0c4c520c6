/** A circular byte buffer with length-prefixed messages; header and data live in the same array. */
module RingBuffer {
  import opened Options
  import opened Bytes

  const HEADER_SIZE := 32
  const MAGIC: seq<Byte> := [67, 83, 82, 66]
  const VERSION := 1
  const U32 := 0x1_0000_0000
  const U64 := 0x1_0000_0000_0000_0000

  // ------------------------------------------------------------- circular data

  /** The position i places after offset t, where neither exceeds the capacity. */
  function Wrap(i: nat, capacity: nat): nat {
    if i < capacity then i else i - capacity
  }

  function UsedBytes(capacity: nat, head: nat, tail: nat): int {
    if head >= tail then head - tail else capacity - (tail - head)
  }

  /** The n bytes of data that start at offset t, wrapping at the end. */
  function Circular(data: seq<Byte>, t: nat, n: nat): seq<Byte>
    requires t < |data| && n <= |data|
  {
    if t + n <= |data| then data[t..t + n] else data[t..] + data[..t + n - |data|]
  }

  /** data with the bytes of frame written from offset h on, wrapping at the end. */
  function Overwritten(data: seq<Byte>, h: nat, frame: seq<Byte>): seq<Byte>
    requires h < |data| && |frame| <= |data|
  {
    if h + |frame| <= |data| then data[..h] + frame + data[h + |frame|..]
    else
      var first := |data| - h;
      frame[first..] + data[|frame| - first..h] + frame[..first]
  }

  lemma CircularAt(data: seq<Byte>, t: nat, n: nat)
    requires t < |data| && n <= |data|
    ensures |Circular(data, t, n)| == n
    ensures forall i: nat | i < n :: Circular(data, t, n)[i] == data[Wrap(t + i, |data|)]
  {
  }

  lemma CircularSplits(data: seq<Byte>, t: nat, a: nat, b: nat)
    requires t < |data| && a + b <= |data| && Wrap(t + a, |data|) < |data|
    ensures Circular(data, t, a + b) == Circular(data, t, a) + Circular(data, Wrap(t + a, |data|), b)
  {
    var m := Wrap(t + a, |data|);
    CircularAt(data, t, a + b);
    CircularAt(data, t, a);
    CircularAt(data, m, b);
    var l, r := Circular(data, t, a + b), Circular(data, t, a) + Circular(data, m, b);
    forall i: nat | i < a + b ensures l[i] == r[i] {
      if i >= a {
        assert r[i] == Circular(data, m, b)[i - a] == data[Wrap(m + (i - a), |data|)];
      }
    }
  }

  /** How far position p lies behind offset h. */
  function Behind(p: nat, h: nat, capacity: nat): int {
    if p >= h then p - h else p + capacity - h
  }

  lemma OverwrittenAt(data: seq<Byte>, h: nat, frame: seq<Byte>, p: nat)
    requires h < |data| && |frame| <= |data| && p < |data|
    ensures |Overwritten(data, h, frame)| == |data|
    ensures Overwritten(data, h, frame)[p] ==
            if Behind(p, h, |data|) < |frame| then frame[Behind(p, h, |data|)] else data[p]
  {
  }

  lemma FrameReadBack(data: seq<Byte>, h: nat, frame: seq<Byte>)
    requires h < |data| && |frame| <= |data|
    ensures |Overwritten(data, h, frame)| == |data| && Circular(Overwritten(data, h, frame), h, |frame|) == frame
  {
    var d := Overwritten(data, h, frame);
    OverwrittenAt(data, h, frame, h);
    CircularAt(d, h, |frame|);
    forall i: nat | i < |frame| ensures Circular(d, h, |frame|)[i] == frame[i] {
      OverwrittenAt(data, h, frame, Wrap(h + i, |data|));
    }
  }

  /** Writing behind the unread bytes leaves them as they are and appends the frame to them. */
  lemma WriteAppends(data: seq<Byte>, tail: nat, used: nat, frame: seq<Byte>)
    requires tail < |data| && used + |frame| < |data|
    ensures var h := Wrap(tail + used, |data|);
            && h < |data|
            && |Overwritten(data, h, frame)| == |data|
            && Circular(Overwritten(data, h, frame), tail, used) == Circular(data, tail, used)
            && Circular(Overwritten(data, h, frame), tail, used + |frame|) == Circular(data, tail, used) + frame
  {
    var n, h := |data|, Wrap(tail + used, |data|);
    var d := Overwritten(data, h, frame);
    FrameReadBack(data, h, frame);
    CircularAt(d, tail, used);
    CircularAt(data, tail, used);
    forall i: nat | i < used ensures Circular(d, tail, used)[i] == Circular(data, tail, used)[i] {
      OverwrittenAt(data, h, frame, Wrap(tail + i, n));
    }
    assert Circular(d, tail, used) == Circular(data, tail, used);
    CircularSplits(d, tail, used, |frame|);
  }

  // ------------------------------------------------------------- frames

  function Frame(m: seq<Byte>): seq<Byte> {
    BigEndian(|m|, 4) + m
  }

  function Frames(q: seq<seq<Byte>>): seq<Byte> {
    if q == [] then [] else Frame(q[0]) + Frames(q[1..])
  }

  lemma {:induction false} FramesAppend(q: seq<seq<Byte>>, m: seq<Byte>)
    ensures Frames(q + [m]) == Frames(q) + Frame(m)
  {
    if q == [] {
      assert q + [m] == [m];
      assert Frames([m]) == Frame(m) + Frames([]);
    } else {
      FramesAppend(q[1..], m);
      assert (q + [m])[1..] == q[1..] + [m];
      assert (q + [m])[0] == q[0];
    }
  }

  lemma FramesHead(q: seq<seq<Byte>>)
    ensures q == [] <==> |Frames(q)| == 0
    ensures q != [] ==> Frames(q) == BigEndian(|q[0]|, 4) + q[0] + Frames(q[1..])
  {
  }

  // ------------------------------------------------------------- splices

  /** after is before with bytes at a position. */
  predicate Spliced(before: seq<Byte>, after: seq<Byte>, at: nat, bytes: seq<Byte>) {
    at + |bytes| <= |before| && after == before[..at] + bytes + before[at + |bytes|..]
  }

  lemma SplicedMeans(before: seq<Byte>, after: seq<Byte>, at: nat, bytes: seq<Byte>)
    requires at + |bytes| <= |before| && after == before[..at] + bytes + before[at + |bytes|..]
    ensures Spliced(before, after, at, bytes)
  {
  }

  lemma SplicedIn(before: seq<Byte>, after: seq<Byte>, at: nat, bytes: seq<Byte>)
    requires Spliced(before, after, at, bytes)
    ensures |after| == |before| && after[at..at + |bytes|] == bytes
  {
  }

  lemma SplicedAround(before: seq<Byte>, after: seq<Byte>, at: nat, bytes: seq<Byte>, i: nat, j: nat)
    requires Spliced(before, after, at, bytes)
    requires i <= j <= at || at + |bytes| <= i <= j <= |before|
    ensures |after| == |before| && after[i..j] == before[i..j]
  {
    forall k: nat | k < j - i ensures after[i..j][k] == before[i..j][k] {
      assert after[i + k] == before[i + k];
    }
  }

  lemma OneSplice(before: seq<Byte>, after: seq<Byte>, o: nat, h: nat, frame: seq<Byte>)
    requires o <= |before| && h < |before[o..]| && h + |frame| <= |before[o..]|
    requires Spliced(before, after, o + h, frame)
    ensures |after| == |before| && after[o..] == Overwritten(before[o..], h, frame) && after[..o] == before[..o]
  {
    var data := before[o..];
    assert before[..o + h] == before[..o] + data[..h];
    assert before[o + h + |frame|..] == data[h + |frame|..];
    assert after == before[..o] + (data[..h] + frame + data[h + |frame|..]);
  }

  /** A frame that wraps is two writes: up to the end of the data, and from its start. */
  lemma OverwriteTwice(data: seq<Byte>, h: nat, frame: seq<Byte>)
    requires h < |data| < h + |frame| && |frame| <= |data|
    ensures var d := Overwritten(data, h, frame[..|data| - h]);
            |d| == |data| && Overwritten(d, 0, frame[|data| - h..]) == Overwritten(data, h, frame)
  {
    var first := |data| - h;
    var d, f := data[..h] + frame[..first], frame[first..];
    assert data[h + first..] == [];
    assert Overwritten(data, h, frame[..first]) == d;
    assert d[|f|..] == data[|f|..h] + frame[..first];
    assert d[..0] == [];
  }

  lemma TwoSplices(before: seq<Byte>, middle: seq<Byte>, after: seq<Byte>, o: nat, h: nat, frame: seq<Byte>)
    requires o <= |before| && h < |before[o..]| < h + |frame| && |frame| <= |before[o..]|
    requires Spliced(before, middle, o + h, frame[..|before[o..]| - h])
    requires Spliced(middle, after, o, frame[|before[o..]| - h..])
    ensures |after| == |before| && after[o..] == Overwritten(before[o..], h, frame) && after[..o] == before[..o]
  {
    hide Overwritten, Spliced;
    var first := |before[o..]| - h;
    OneSplice(before, middle, o, h, frame[..first]);
    OneSplice(middle, after, o, 0, frame[first..]);
    OverwriteTwice(before[o..], h, frame);
  }

  /** The layout of the header. */
  lemma HeaderFields(m: seq<Byte>, v: seq<Byte>, c: seq<Byte>, h: seq<Byte>, t: seq<Byte>, s: seq<Byte>, rest: seq<Byte>)
    requires |m| == 4 && |v| == 2 && |c| == 4 && |h| == 4 && |t| == 4 && |s| == 8
    ensures var x := m + v + c + h + t + s + rest;
            && x[0..4] == m && x[4..6] == v && x[6..10] == c && x[10..14] == h && x[14..18] == t && x[18..26] == s
  {
  }

  lemma FieldValues(capacity: nat)
    requires capacity < U32
    ensures Value(BigEndian(VERSION, 2)) == VERSION && Value(BigEndian(capacity, 4)) == capacity
    ensures Value(BigEndian(0, 4)) == 0 && Value(BigEndian(0, 8)) == 0
  {
    PowersOf256();
    ValueOfBigEndian(VERSION, 2);
    ValueOfBigEndian(capacity, 4);
    ValueOfBigEndian(0, 4);
    ValueOfBigEndian(0, 8);
  }

  datatype WriteResult = Written(sequence: nat) | TooLarge | Full | SequenceOverflow

  class SharedRing {
    const buf: array<Byte>
    /** The messages written and not yet read. */
    ghost var messages: seq<seq<Byte>>

    function Capacity(): nat
      reads buf
      requires buf.Length >= HEADER_SIZE
    {
      Value(buf[6..10])
    }

    function Head(): nat
      reads buf
      requires buf.Length >= HEADER_SIZE
    {
      Value(buf[10..14])
    }

    function Tail(): nat
      reads buf
      requires buf.Length >= HEADER_SIZE
    {
      Value(buf[14..18])
    }

    function Sequence(): nat
      reads buf
      requires buf.Length >= HEADER_SIZE
    {
      Value(buf[18..26])
    }

    ghost function Data(): seq<Byte>
      reads buf
      requires buf.Length >= HEADER_SIZE
    {
      buf[HEADER_SIZE..]
    }

    /** Everything but the frames: a well-formed header over a data area of the stated capacity. */
    ghost predicate Formed()
      reads buf
    {
      && buf.Length >= HEADER_SIZE
      && buf[0..4] == MAGIC && Value(buf[4..6]) == VERSION
      && Capacity() < U32 && buf.Length == HEADER_SIZE + Capacity()
      && (if Capacity() == 0 then Head() == Tail() == 0 else Head() < Capacity() && Tail() < Capacity())
    }

    ghost predicate Valid()
      reads this, buf
    {
      && Formed()
      && Frames(messages) == if Capacity() == 0 then [] else Circular(Data(), Tail(), Used())
    }

    /** available_read_bytes */
    function Used(): nat
      reads buf
      requires Formed()
    {
      UsedBytes(Capacity(), Head(), Tail())
    }

    /** available_write_bytes */
    function Free(): nat
      reads buf
      requires Formed()
    {
      if Capacity() - 1 - Used() < 0 then 0 else Capacity() - 1 - Used()
    }

    constructor (capacity: nat)
      requires capacity < 0x1_0000_0000
      ensures Valid() && fresh(buf)
      ensures Capacity() == capacity && messages == [] && Sequence() == 0
    {
      buf := new Byte[HEADER_SIZE + capacity](_ => 0);
      messages := [];
      new;
      hide *;
      var version, size, zero4, zero8 := BigEndian(VERSION, 2), BigEndian(capacity, 4), BigEndian(0, 4), BigEndian(0, 8);
      var header := MAGIC + version + size + zero4 + zero4 + zero8;
      ghost var before := buf[..];
      Blit(buf, 0, header);
      ghost var after := buf[..];
      assert before[..0] == [] && [] + header == header;
      assert after == header + before[26..];
      HeaderFields(MAGIC, version, size, zero4, zero4, zero8, before[26..]);
      FieldValues(capacity);
      HeaderIs(after, capacity);
      NothingQueued();
    }

    /** A header just written is read back. */
    lemma HeaderIs(all: seq<Byte>, capacity: nat)
      requires all == buf[..] && |all| == HEADER_SIZE + capacity && capacity < U32
      requires all[0..4] == MAGIC && Value(all[4..6]) == VERSION && Value(all[6..10]) == capacity
      requires Value(all[10..14]) == Value(all[14..18]) == Value(all[18..26]) == 0
      ensures Formed() && Capacity() == capacity && Head() == Tail() == Sequence() == 0
    {
      hide Value;
      assert buf[0..4] == all[0..4] && buf[4..6] == all[4..6] && buf[6..10] == all[6..10];
      assert buf[10..14] == all[10..14] && buf[14..18] == all[14..18] && buf[18..26] == all[18..26];
    }

    lemma NothingQueued()
      requires Formed() && Head() == Tail() == 0 && messages == []
      ensures Valid()
    {
      hide Value;
    }

    /** The first bytes are the letters CSRB and the version; the data follow 32 bytes of header. */
    lemma HeaderStart()
      requires Formed()
      ensures buf.Length == 32 + Capacity() && buf[..6] == [67, 83, 82, 66, 0, 1]
    {
      var v := buf[4..6];
      FirstByteWeighsMost(v[0], v[1..]);
      assert v == [v[0]] + v[1..] && v[1..] == [v[1]];
      assert Value([v[1]]) == v[1] && Pow256(1) == 256;
      assert buf[..6] == buf[0..4] + v;
    }

    lemma FreePlusUsed()
      requires Formed() && Capacity() > 0
      ensures Free() + Used() == Capacity() - 1
    {
    }

    /** Rewrites one header field and nothing else. */
    method PutField(at: nat, n: nat, width: nat)
      requires Formed() && n < Pow256(width)
      requires (at == 10 && width == 4) || (at == 14 && width == 4) || (at == 18 && width == 8)
      modifies buf
      ensures buf[..] == old(buf[..at]) + BigEndian(n, width) + old(buf[at + width..])
      ensures buf[0..4] == old(buf[0..4]) && buf[4..6] == old(buf[4..6]) && Data() == old(Data())
      ensures Capacity() == old(Capacity())
      ensures Head() == (if at == 10 then n else old(Head()))
      ensures Tail() == (if at == 14 then n else old(Tail()))
      ensures Sequence() == (if at == 18 then n else old(Sequence()))
    {
      hide BigEndian, Value, Spliced;
      ValueOfBigEndian(n, width);
      var bytes := BigEndian(n, width);
      ghost var before := buf[..];
      Blit(buf, at, bytes);
      ghost var after := buf[..];
      SplicedMeans(before, after, at, bytes);
      SplicedIn(before, after, at, bytes);
      assert buf[0..4] == after[0..4] && buf[4..6] == after[4..6] && buf[6..10] == after[6..10];
      assert buf[10..14] == after[10..14] && buf[14..18] == after[14..18] && buf[18..26] == after[18..26];
      assert buf[HEADER_SIZE..] == after[HEADER_SIZE..|after|];
      SplicedAround(before, after, at, bytes, 0, 4);
      SplicedAround(before, after, at, bytes, 4, 6);
      SplicedAround(before, after, at, bytes, 6, 10);
      if at != 10 {
        SplicedAround(before, after, at, bytes, 10, 14);
      }
      if at != 14 {
        SplicedAround(before, after, at, bytes, 14, 18);
      }
      if at != 18 {
        SplicedAround(before, after, at, bytes, 18, 26);
      }
      SplicedAround(before, after, at, bytes, HEADER_SIZE, |before|);
      assert before[HEADER_SIZE..|before|] == before[HEADER_SIZE..];
    }

    /** Stores the offset behind the last byte written. */
    method StoreHead(head: nat)
      requires Formed() && head < Capacity()
      modifies buf
      ensures Formed() && Capacity() == old(Capacity()) && Data() == old(Data())
      ensures Head() == head && Tail() == old(Tail()) && Sequence() == old(Sequence())
    {
      hide Value, BigEndian, Pow256;
      PowersOf256();
      PutField(10, head, 4);
    }

    /** Stores the offset of the oldest unread byte. */
    method StoreTail(tail: nat)
      requires Formed() && tail < Capacity()
      modifies buf
      ensures Formed() && Capacity() == old(Capacity()) && Data() == old(Data())
      ensures Head() == old(Head()) && Tail() == tail && Sequence() == old(Sequence())
    {
      hide Value, BigEndian, Pow256;
      PowersOf256();
      PutField(14, tail, 4);
    }

    /** Stores the sequence number. */
    method StoreSequence(sequence: nat)
      requires Formed() && sequence < U64
      modifies buf
      ensures Formed() && Capacity() == old(Capacity()) && Data() == old(Data())
      ensures Head() == old(Head()) && Tail() == old(Tail()) && Sequence() == sequence
    {
      hide Value, BigEndian, Pow256;
      PowersOf256();
      PutField(18, sequence, 8);
    }

    /** Writes a frame from offset h of the data area on, wrapping at its end. */
    method WriteBytesCircular(h: nat, frame: seq<Byte>)
      requires buf.Length >= HEADER_SIZE && h < |Data()| && |frame| <= |Data()|
      modifies buf
      ensures buf[..HEADER_SIZE] == old(buf[..HEADER_SIZE])
      ensures Data() == Overwritten(old(Data()), h, frame)
    {
      hide Overwritten, Spliced;
      var capacity := buf.Length - HEADER_SIZE;
      ghost var before := buf[..];
      assert Data() == before[HEADER_SIZE..];
      if h + |frame| <= capacity {
        Blit(buf, HEADER_SIZE + h, frame);
        ghost var after := buf[..];
        SplicedMeans(before, after, HEADER_SIZE + h, frame);
        OneSplice(before, after, HEADER_SIZE, h, frame);
        assert Data() == after[HEADER_SIZE..] && buf[..HEADER_SIZE] == after[..HEADER_SIZE];
      } else {
        var part1 := capacity - h;
        Blit(buf, HEADER_SIZE + h, frame[..part1]);
        ghost var middle := buf[..];
        SplicedMeans(before, middle, HEADER_SIZE + h, frame[..part1]);
        Blit(buf, HEADER_SIZE, frame[part1..]);
        ghost var after := buf[..];
        SplicedMeans(middle, after, HEADER_SIZE, frame[part1..]);
        TwoSplices(before, middle, after, HEADER_SIZE, h, frame);
        assert Data() == after[HEADER_SIZE..] && buf[..HEADER_SIZE] == after[..HEADER_SIZE];
      }
    }

    /** Same header bytes, same header fields. */
    twostate lemma HeaderKept()
      requires buf.Length >= HEADER_SIZE && buf[..HEADER_SIZE] == old(buf[..HEADER_SIZE])
      ensures buf[0..4] == old(buf[0..4]) && buf[4..6] == old(buf[4..6])
      ensures Capacity() == old(Capacity()) && Head() == old(Head())
      ensures Tail() == old(Tail()) && Sequence() == old(Sequence())
    {
      var now, before := buf[..HEADER_SIZE], old(buf[..HEADER_SIZE]);
      assert buf[0..4] == now[0..4] && old(buf[0..4]) == before[0..4];
      assert buf[4..6] == now[4..6] && old(buf[4..6]) == before[4..6];
      assert buf[6..10] == now[6..10] && old(buf[6..10]) == before[6..10];
      assert buf[10..14] == now[10..14] && old(buf[10..14]) == before[10..14];
      assert buf[14..18] == now[14..18] && old(buf[14..18]) == before[14..18];
      assert buf[18..26] == now[18..26] && old(buf[18..26]) == before[18..26];
    }

    /** Writes the frame of a message that fits behind the unread bytes and moves the head. */
    method Enqueue(data: seq<Byte>)
      requires Valid() && 4 + |data| <= Free()
      modifies this`messages, buf
      ensures Valid() && Capacity() == old(Capacity()) && Tail() == old(Tail()) && Sequence() == old(Sequence())
      ensures messages == old(messages) + [data] && Used() == old(Used()) + 4 + |data|
      ensures Circular(Data(), Tail(), old(Used())) == old(Circular(Data(), Tail(), Used()))
    {
      hide Circular, Overwritten, BigEndian, Value, Frames, Pow256;
      var capacity, head, tail := Capacity(), Head(), Tail();
      ghost var used, before := Used(), Data();
      var frame := Frame(data);
      assert head == Wrap(tail + used, capacity);
      WriteAppends(before, tail, used, frame);
      WriteBytesCircular(head, frame);
      HeaderKept();
      var newHead := (head + |frame|) % capacity;
      ModIsWrap(head + |frame|, capacity);
      StoreHead(newHead);
      messages := messages + [data];
      FramesAppend(old(messages), data);
    }

    /** Appends a message if its frame fits the free space; no unread byte changes either way. The head is stored
        before the sequence number, so at its last value the write fails and the message is in the queue all the
        same. */
    method Write(data: seq<Byte>) returns (r: WriteResult)
      requires Valid()
      modifies this`messages, buf
      ensures Valid() && Capacity() == old(Capacity()) && Tail() == old(Tail())
      ensures r.TooLarge? <==> 4 + |data| > old(Capacity()) - 1
      ensures r.Full? <==> !r.TooLarge? && 4 + |data| > old(Free())
      ensures r.SequenceOverflow? <==> !r.TooLarge? && !r.Full? && old(Sequence()) == 18446744073709551615
      ensures r.Written? ==> r.sequence == Sequence() == old(Sequence()) + 1
      ensures !r.Written? ==> Sequence() == old(Sequence())
      ensures if r.TooLarge? || r.Full? then buf[..] == old(buf[..]) && messages == old(messages)
              else
                && messages == old(messages) + [data]
                && Circular(Data(), Tail(), old(Used())) == old(Circular(Data(), Tail(), Used()))
                && Used() == old(Used()) + 4 + |data|
    {
      hide Circular, BigEndian, Value, Frames, Pow256;
      var total := 4 + |data|;
      var capacity: int, sequence := Capacity(), Sequence();
      if total > capacity - 1 {
        return TooLarge;
      }
      if total > Free() {
        return Full;
      }
      Enqueue(data);
      PowersOf256();
      ValueBound(buf[18..26]);
      if sequence + 1 >= U64 {
        return SequenceOverflow;
      }
      StoreSequence(sequence + 1);
      return Written(sequence + 1);
    }

    /** Copies n bytes from offset t of the data area on, wrapping at its end. */
    method ReadBytesCircular(t: nat, n: nat) returns (r: seq<Byte>)
      requires buf.Length >= HEADER_SIZE && t < |Data()| && n <= |Data()|
      ensures r == Circular(Data(), t, n)
    {
      var capacity := buf.Length - HEADER_SIZE;
      if t + n <= capacity {
        return buf[HEADER_SIZE + t..HEADER_SIZE + t + n];
      }
      var part1 := capacity - t;
      return buf[HEADER_SIZE + t..HEADER_SIZE + t + part1] + buf[HEADER_SIZE..HEADER_SIZE + n - part1];
    }

    /** The queue is empty exactly if head and tail are level. */
    lemma EmptyWhenLevel()
      requires Valid()
      ensures messages == [] <==> Head() == Tail()
      ensures messages != [] ==> Capacity() > 0
    {
      hide Circular, BigEndian, Value, Frames;
      FramesHead(messages);
      if Capacity() > 0 {
        CircularAt(Data(), Tail(), Used());
      }
    }

    /** Takes the oldest message. */
    method Read() returns (r: Option<seq<Byte>>)
      requires Valid()
      modifies this`messages, buf
      ensures Valid() && Capacity() == old(Capacity()) && Head() == old(Head()) && Sequence() == old(Sequence())
      ensures old(messages) == [] <==> r.None?
      ensures r.None? ==> messages == [] && buf[..] == old(buf[..])
      ensures r.Some? ==> old(messages) == [r.value] + messages
      ensures r.Some? ==> Used() == old(Used()) - 4 - |r.value| && Data() == old(Data())
    {
      hide Circular, BigEndian, Value, Frames;
      EmptyWhenLevel();
      if Head() == Tail() {
        return None;
      }
      var payload, newTail := ReadFrame();
      StoreTail(newTail);
      messages := messages[1..];
      return Some(payload);
    }

    /** The oldest message and the offset behind its frame. */
    method ReadFrame() returns (payload: seq<Byte>, newTail: nat)
      requires Valid() && messages != [] && Capacity() > 0
      ensures payload == messages[0] && newTail < Capacity()
      ensures UsedBytes(Capacity(), Head(), newTail) == Used() - 4 - |payload| >= 0
      ensures Circular(Data(), newTail, Used() - 4 - |payload|) == Frames(messages[1..])
    {
      hide Circular, BigEndian, Value, Frames, UsedBytes;
      var capacity, tail := Capacity(), Tail();
      OldestFrame(Data(), Head(), tail, messages);
      var prefix := ReadBytesCircular(tail, 4);
      LengthReadBack(|messages[0]|);
      var length := Value(prefix);
      payload := ReadBytesCircular((tail + 4) % capacity, length);
      newTail := (tail + 4 + length) % capacity;
    }
  }

  lemma PowersOf256()
    ensures Pow256(4) == U32 && Pow256(8) == U64
  {
    assert Pow256(2) == 65536;
    assert Pow256(4) == 256 * (256 * Pow256(2));
    assert Pow256(6) == 256 * (256 * Pow256(4));
    assert Pow256(8) == 256 * (256 * Pow256(6));
  }

  /** Where the oldest frame stands: its length at the tail, its content four places on, the others behind it. */
  lemma OldestFrame(data: seq<Byte>, head: nat, tail: nat, messages: seq<seq<Byte>>)
    requires head < |data| && tail < |data| && messages != []
    requires Frames(messages) == Circular(data, tail, UsedBytes(|data|, head, tail))
    ensures var n, used := |messages[0]|, UsedBytes(|data|, head, tail);
            var start, next := (tail + 4) % |data|, (tail + 4 + n) % |data|;
            && 4 + n <= used < |data|
            && Circular(data, tail, 4) == BigEndian(n, 4)
            && Circular(data, start, n) == messages[0]
            && UsedBytes(|data|, head, next) == used - 4 - n
            && Circular(data, next, used - 4 - n) == Frames(messages[1..])
  {
    hide Circular, BigEndian, Frames;
    var used, m := UsedBytes(|data|, head, tail), messages[0];
    FramesHead(messages);
    CircularAt(data, tail, used);
    FirstFrame(data, tail, used, BigEndian(|m|, 4), m, Frames(messages[1..]));
    ModIsWrap(tail + 4, |data|);
    ModIsWrap(tail + 4 + |m|, |data|);
  }

  lemma LengthReadBack(n: nat)
    requires n < U32
    ensures Value(BigEndian(n, 4)) == n
  {
    PowersOf256();
    ValueOfBigEndian(n, 4);
  }

  lemma ModIsWrap(i: nat, capacity: nat)
    requires 0 < capacity && i < 2 * capacity
    ensures i % capacity == Wrap(i, capacity) < capacity
  {
  }

  /** The oldest frame and what follows it, as circular stretches. */
  lemma FirstFrame(data: seq<Byte>, tail: nat, used: nat, prefix: seq<Byte>, m: seq<Byte>, rest: seq<Byte>)
    requires tail < |data| && used < |data| && used == |prefix| + |m| + |rest|
    requires Circular(data, tail, used) == prefix + m + rest
    ensures Circular(data, tail, |prefix|) == prefix
    ensures Circular(data, Wrap(tail + |prefix|, |data|), |m|) == m
    ensures Circular(data, Wrap(tail + |prefix| + |m|, |data|), |rest|) == rest
  {
    hide Circular;
    var a, b := |prefix|, |prefix| + |m|;
    CircularAt(data, tail, used);
    CircularSplits(data, tail, a, |m| + |rest|);
    CircularAt(data, tail, a);
    var later := Circular(data, Wrap(tail + a, |data|), |m| + |rest|);
    assert prefix + m + rest == prefix + (m + rest);
    assert Circular(data, tail, a) == (prefix + (m + rest))[..a];
    assert later == (prefix + (m + rest))[a..];
    CircularAt(data, Wrap(tail + a, |data|), |m| + |rest|);
    CircularSplits(data, Wrap(tail + a, |data|), |m|, |rest|);
    CircularAt(data, Wrap(tail + a, |data|), |m|);
    assert Circular(data, Wrap(tail + a, |data|), |m|) == later[..|m|];
    assert Wrap(Wrap(tail + a, |data|) + |m|, |data|) == Wrap(tail + b, |data|);
    assert Circular(data, Wrap(tail + b, |data|), |rest|) == later[|m|..];
  }

  /** Any interleaving of writes (Some) and reads (None): what entered the queue, in order, is what was delivered
      followed by what is still unread, and the sequence number counts the entries until it has reached its last
      value. */
  method Interleave(ring: SharedRing, ops: seq<Option<seq<Byte>>>)
    returns (entered: seq<seq<Byte>>, delivered: seq<seq<Byte>>)
    requires ring.Valid()
    modifies ring, ring.buf
    ensures ring.Valid()
    ensures old(ring.messages) + entered == delivered + ring.messages
    ensures ring.Sequence() == var n := old(ring.Sequence()) + |entered|; if n < U64 then n else U64 - 1
  {
    hide Value, Frames, Circular, UsedBytes;
    entered, delivered := [], [];
    PowersOf256();
    ValueBound(ring.buf[18..26]);
    ghost var first := ring.Sequence();
    for i := 0 to |ops|
      invariant ring.Valid()
      invariant old(ring.messages) + entered == delivered + ring.messages
      invariant ring.Sequence() == if first + |entered| < U64 then first + |entered| else U64 - 1
    {
      if ops[i].Some? {
        var r := ring.Write(ops[i].value);
        if r.Written? || r.SequenceOverflow? {
          assert old(ring.messages) + (entered + [ops[i].value]) == old(ring.messages) + entered + [ops[i].value];
          entered := entered + [ops[i].value];
        }
      } else {
        var m := ring.Read();
        if m.Some? {
          assert delivered + ([m.value] + ring.messages) == delivered + [m.value] + ring.messages;
          delivered := delivered + [m.value];
        }
      }
    }
  }
}
