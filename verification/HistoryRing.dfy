/** The ring buffer of signal samples and its file. */
module HistoryRing {
  import opened Sequences

  /** A sample; timestamp 0 is the zero time. */
  datatype Sample = Sample(timestamp: int, rssi: int, rsrp: int, rsrq: int, sinr: int, percentage: int, tech: string)

  const BLANK := Sample(0, 0, 0, 0, 0, 0, "")

  /** What reading the history file yields. */
  datatype File = NoPath | Missing | Unreadable | EmptyFile | Malformed | Samples(samples: seq<Sample>)

  /** The stored samples, oldest first, of a buffer whose next write goes to `head`. */
  function Window(buf: seq<Sample>, head: nat, size: nat): (r: seq<Sample>)
    requires head < |buf| && size <= |buf|
    ensures |r| == size
  { if size < |buf| then buf[..size] else buf[head..] + buf[..head] }

  /** The slot `i` places after `start`, around the end of a buffer of `n`. */
  function Slot(start: nat, i: nat, n: nat): (r: nat)
    requires start < n && i <= n
    ensures r == if start + i < n then start + i else start + i - n
  { (start + i) % n }

  lemma {:induction false} WindowPut(buf: seq<Sample>, head: nat, size: nat, s: Sample)
    requires head < |buf| && size <= |buf| && (size < |buf| ==> head == size)
    ensures Window(buf[head := s], Slot(head, 1, |buf|), if size < |buf| then size + 1 else size)
      == (if size < |buf| then Window(buf, head, size) else Window(buf, head, size)[1..]) + [s]
  {
    hide Slot;
  }

  lemma {:induction false} WindowAt(buf: seq<Sample>, head: nat, size: nat, i: nat)
    requires head < |buf| && size <= |buf| && i < size
    ensures buf[Slot(if size == |buf| then head else 0, i, |buf|)] == Window(buf, head, size)[i]
  {
    hide Slot;
  }

  class Ring {
    var buf: array<Sample>
    var head: nat       // next write index
    var size: nat
    ghost var log: seq<Sample>   // every sample since the ring was created or last loaded

    ghost predicate Valid()
      reads this, buf
    {
      && buf.Length >= 1 && head < buf.Length && size <= buf.Length
      && (size < buf.Length ==> head == size)
      && Window(buf[..], head, size) == LastN(log, buf.Length)
    }

    constructor (capacity: int)
      ensures Valid() && fresh(buf) && log == []
      ensures buf.Length == if capacity < 1 then 1 else capacity
    {
      var n := if capacity < 1 then 1 else capacity;
      buf := new Sample[n](_ => BLANK);
      head, size, log := 0, 0, [];
    }

    /** The write step that adding and loading share. */
    method Put(s: Sample)
      requires Valid()
      modifies this`head, this`size, this`log, buf
      ensures Valid() && log == old(log) + [s]
    {
      LastNPush(log, s, buf.Length);
      WindowPut(buf[..], head, size, s);
      hide Window, LastN, Slot;
      buf[head] := s;
      head := Slot(head, 1, buf.Length);
      size := if size < buf.Length then size + 1 else size;
      log := log + [s];
      assert buf[..] == old(buf[..])[old(head) := s];
    }

    /** `Add`: a sample without a time gets the current one. */
    method Add(s: Sample, now: int)
      requires Valid()
      modifies this`head, this`size, this`log, buf
      ensures Valid() && log == old(log) + [if s.timestamp == 0 then s.(timestamp := now) else s]
    {
      Put(if s.timestamp == 0 then s.(timestamp := now) else s);
    }

    /** `Snapshot`: the newest samples, as many as fit, oldest first. */
    method Snapshot() returns (out: seq<Sample>)
      requires Valid()
      ensures out == LastN(log, buf.Length)
    {
      if size == 0 {
        return [];
      }
      var start := if size == buf.Length then head else 0;
      out := [];
      ghost var window := Window(buf[..], head, size);
      for i := 0 to size
        invariant out == window[..i]
      {
        WindowAt(buf[..], head, size, i);
        hide Window, LastN, Slot;
        out := out + [buf[Slot(start, i, buf.Length)]];
      }
    }

    /** The ring before the first sample. */
    method Reset()
      requires Valid()
      modifies this`head, this`size, this`log, buf
      ensures Valid() && log == []
    {
      head, size, log := 0, 0, [];
      for i := 0 to buf.Length
        modifies buf
      {
        buf[i] := BLANK;
      }
    }

    method Refill(samples: seq<Sample>)
      requires Valid() && log == []
      modifies this`head, this`size, this`log, buf
      ensures Valid() && log == samples
    {
      hide Window, LastN, Slot;
      for i := 0 to |samples|
        invariant Valid() && log == samples[..i]
      {
        Put(samples[i]);
      }
    }

    /** `LoadFile`: a readable list replaces the contents; anything else leaves the ring alone, and
        is an error only if unreadable or malformed. */
    method LoadFile(file: File) returns (ok: bool)
      requires Valid()
      modifies this`head, this`size, this`log, buf
      ensures Valid()
      ensures ok <==> !file.Unreadable? && !file.Malformed?
      ensures log == if file.Samples? then file.samples else old(log)
    {
      if !file.Samples? {
        return !file.Unreadable? && !file.Malformed?;
      }
      var samples := file.samples;
      LastNTwice(samples, buf.Length, buf.Length);
      Reset();
      hide Window, LastN, Slot;
      if |samples| > buf.Length {
        samples := samples[|samples| - buf.Length..];
      }
      Refill(samples);
      log := file.samples;
      return true;
    }
  }

  /** Saving one ring and loading the file into another, of any capacity, keeps the newest samples
      that both can hold. */
  method SaveAndLoad(from: Ring, to: Ring) returns (saved: seq<Sample>, loaded: seq<Sample>)
    requires from.Valid() && to.Valid() && from != to && from.buf != to.buf
    modifies to`head, to`size, to`log, to.buf
    ensures to.Valid() && from.Valid()
    ensures saved == LastN(from.log, from.buf.Length)
    ensures loaded == LastN(from.log, if from.buf.Length <= to.buf.Length then from.buf.Length else to.buf.Length)
  {
    saved := from.Snapshot();
    var ok := to.LoadFile(Samples(saved));
    loaded := to.Snapshot();
    LastNTwice(from.log, from.buf.Length, to.buf.Length);
  }
}
