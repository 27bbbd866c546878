/**
 * utility/reader.go: the stream count of read controllers, and the byte and
 * error accounting of ChannelReader.WriteTo. The reader goroutines and the
 * channels are not modelled: the results a ChannelReader receives are a
 * sequence, and the writer is a function of the call number and the buffer.
 */
module Reader {
  import opened Wrappers
  import Api

  /** A ReadChannelController; `capacity` is cap(r.c), the number of reader goroutines. */
  class ReadChannelController {
    const capacity: nat

    constructor (capacity: nat)
      ensures this.capacity == capacity
    {
      this.capacity := capacity;
    }

    /** Streams: how many streams the controller handles in parallel. */
    function Streams(): nat {
      capacity
    }
  }

  const NprocsPanic := "nprocs must be >= 1"
  const EmptyMapPanic := "Input map was empty"

  /** NewReadChannelController: panics (None) for fewer than one process, and
      otherwise handles nprocs streams. */
  method NewReadChannelController(nprocs: int) returns (ctrl: Option<ReadChannelController>)
    ensures ctrl.None? <==> nprocs < 1
    ensures ctrl.Some? ==> fresh(ctrl.value) && ctrl.value.Streams() == nprocs
  {
    if nprocs < 1 {
      return None;
    }
    var c := new ReadChannelController(nprocs);
    return Some(c);
  }

  /** The streams of a set of controllers, each counted once. */
  ghost function SumStreams(cs: set<ReadChannelController>): int
    decreases |cs|
  {
    if cs == {} then 0
    else
      var c :| c in cs;
      c.Streams() + SumStreams(cs - {c})
  }

  /** The sum does not depend on which controller is taken first. */
  lemma {:induction false} SumStreamsRemove(cs: set<ReadChannelController>, c: ReadChannelController)
    requires c in cs
    ensures SumStreams(cs) == c.Streams() + SumStreams(cs - {c})
    decreases |cs|
  {
    var d :| d in cs && SumStreams(cs) == d.Streams() + SumStreams(cs - {d});
    if d != c {
      SumStreamsRemove(cs - {d}, c);
      SumStreamsRemove(cs - {c}, d);
      assert cs - {d} - {c} == cs - {c} - {d};
    }
  }

  /** ReadChannelDeviceMapStreams: panics (None) on an empty map; otherwise the
      streams of all distinct controllers the map refers to. */
  method ReadChannelDeviceMapStreams(rm: map<string, ReadChannelController>) returns (nstreams: Option<int>)
    ensures nstreams.None? <==> |rm| == 0
    ensures nstreams.Some? ==> nstreams.value == SumStreams(rm.Values)
  {
    if |rm| == 0 {
      return None;
    }
    var n := 0;
    var seen: seq<ReadChannelController> := [];
    var keys := rm.Keys;
    ghost var done: set<string> := {};
    while keys != {}
      invariant keys !! done && keys + done == rm.Keys
      invariant Elements(seen) == Image(rm, done)
      invariant n == SumStreams(Elements(seen))
      decreases |keys|
    {
      var key :| key in keys;
      var ctrl := rm[key];
      var cseen := Seen(seen, ctrl);
      CountStep(rm, done, key, seen, n, cseen);
      if !cseen {
        seen := seen + [ctrl];
        n := n + ctrl.Streams();
      }
      keys := keys - {key};
      done := done + {key};
    }
    assert done == rm.Keys;
    ImageAll(rm);
    return Some(n);
  }

  /** The controllers a sequence holds. */
  ghost function Elements(cs: seq<ReadChannelController>): set<ReadChannelController> {
    set c | c in cs
  }

  /** The controllers a set of keys refers to. */
  ghost function Image(rm: map<string, ReadChannelController>, keys: set<string>): set<ReadChannelController>
    requires keys <= rm.Keys
  {
    set k | k in keys :: rm[k]
  }

  lemma ElementsAppend(cs: seq<ReadChannelController>, c: ReadChannelController)
    ensures Elements(cs + [c]) == Elements(cs) + {c}
  {
    assert forall x :: x in cs + [c] <==> x in cs || x == c;
  }

  /** One iteration of ReadChannelDeviceMapStreams keeps its invariant. */
  lemma CountStep(rm: map<string, ReadChannelController>, done: set<string>, key: string,
                  seen: seq<ReadChannelController>, n: int, cseen: bool)
    requires done <= rm.Keys && key in rm
    requires Elements(seen) == Image(rm, done) && n == SumStreams(Elements(seen))
    requires cseen <==> rm[key] in seen
    ensures var seen' := if cseen then seen else seen + [rm[key]];
            var n' := if cseen then n else n + rm[key].Streams();
            Elements(seen') == Image(rm, done + {key}) && n' == SumStreams(Elements(seen'))
  {
    var ctrl := rm[key];
    ImageAdd(rm, done, key);
    if cseen {
      assert Elements(seen) + {ctrl} == Elements(seen);
    } else {
      ElementsAppend(seen, ctrl);
      SumStreamsRemove(Elements(seen) + {ctrl}, ctrl);
      assert Elements(seen) + {ctrl} - {ctrl} == Elements(seen);
    }
  }

  lemma ImageAll(rm: map<string, ReadChannelController>)
    ensures Image(rm, rm.Keys) == rm.Values
  {
  }

  lemma ImageAdd(rm: map<string, ReadChannelController>, keys: set<string>, key: string)
    requires keys <= rm.Keys && key in rm
    ensures Image(rm, keys + {key}) == Image(rm, keys) + {rm[key]}
  {
  }

  /** The inner search of ReadChannelDeviceMapStreams: is the controller already counted? */
  method Seen(seen: seq<ReadChannelController>, ctrl: ReadChannelController) returns (cseen: bool)
    ensures cseen <==> ctrl in seen
  {
    cseen := false;
    for j := 0 to |seen|
      invariant cseen <==> ctrl in seen[..j]
    {
      if seen[j] == ctrl {
        cseen := true;
        break;
      }
    }
  }

  /** Every key on one controller: the count is that controller's streams. */
  lemma SingleController(rm: map<string, ReadChannelController>, c: ReadChannelController)
    requires |rm| > 0 && forall k :: k in rm ==> rm[k] == c
    ensures SumStreams(rm.Values) == c.Streams()
  {
    var k :| k in rm;
    assert rm[k] in rm.Values;
    assert rm.Values == {c};
    SumStreamsRemove({c}, c);
    assert {c} - {c} == {};
  }

  /** Another key on a controller already in the map changes nothing. */
  lemma SharedControllerCountedOnce(rm: map<string, ReadChannelController>, key: string, c: ReadChannelController)
    requires key !in rm && c in rm.Values
    ensures SumStreams(rm[key := c].Values) == SumStreams(rm.Values)
  {
    var m := rm[key := c];
    forall x | x in rm.Values
      ensures x in m.Values
    {
      var k :| k in rm && rm[k] == x;
      assert m[k] == x;
    }
    assert m.Values == rm.Values;
  }

  /** Another key on a new controller adds that controller's streams. */
  lemma NewControllerAdds(rm: map<string, ReadChannelController>, key: string, c: ReadChannelController)
    requires key !in rm && c !in rm.Values
    ensures SumStreams(rm[key := c].Values) == SumStreams(rm.Values) + c.Streams()
  {
    var m := rm[key := c];
    forall x | x in rm.Values
      ensures x in m.Values
    {
      var k :| k in rm && rm[k] == x;
      assert m[k] == x;
    }
    assert m[key] == c;
    assert m.Values == rm.Values + {c};
    SumStreamsRemove(rm.Values + {c}, c);
    assert rm.Values + {c} - {c} == rm.Values;
  }

  // ---------------------------------------------------------------------------
  // ChannelReader.WriteTo
  // ---------------------------------------------------------------------------

  /** A read error: io.EOF, or any other error. */
  datatype ReadError = EOF | ReadFailure(failure: Api.Failure)

  /** readResult: the bytes read, their count, and the read error. */
  datatype ReadResult = ReadResult(buf: seq<bv8>, n: int, err: Option<ReadError>)

  /** What the writer's i-th Write call returns: bytes written and its error. */
  type Writer = (nat, seq<bv8>) -> (int, Option<Api.Failure>)

  /** What WriteTo returns, or the panic it raises. */
  datatype Tally = Tally(n: int, err: Option<Api.Failure>) | Panic(msg: string)

  const ZeroReadPanic := "If 0 bytes have been read, there should at least be an EOF (in case of empty files)"

  /** A result with no bytes and no error breaks the readers' protocol. */
  predicate Violates(r: ReadResult) {
    r.n == 0 && r.err.None?
  }

  /** One iteration of the loop: write the buffer, add the count, take the
      write error, let a read error other than EOF replace it, then check the protocol. */
  function TallyStep(t: Tally, i: nat, r: ReadResult, write: Writer): Tally {
    if t.Panic? then t
    else
      var w := write(i, r.buf);
      var err := if r.err.Some? && r.err.value.ReadFailure? then Some(r.err.value.failure) else w.1;
      if Violates(r) then Panic(ZeroReadPanic) else Tally(t.n + w.0, err)
  }

  /** WriteTo over the results received, in order. */
  function Tallied(rs: seq<ReadResult>, write: Writer): Tally
    decreases |rs|
  {
    if rs == [] then Tally(0, None)
    else TallyStep(Tallied(rs[..|rs| - 1], write), |rs| - 1, rs[|rs| - 1], write)
  }

  method WriteTo(results: seq<ReadResult>, write: Writer) returns (t: Tally)
    ensures t == Tallied(results, write)
  {
    var n := 0;
    var err: Option<Api.Failure> := None;
    for i := 0 to |results|
      invariant Tallied(results[..i], write) == Tally(n, err)
    {
      assert results[..i + 1][..i] == results[..i];
      var res := results[i];
      var written, werr := write(i, res.buf).0, write(i, res.buf).1;
      err := werr;
      n := n + written;
      if res.err.Some? && res.err.value.ReadFailure? {
        err := Some(res.err.value.failure);
      }
      if res.n == 0 && res.err.None? {
        PanicSticks(results, i + 1, write);
        return Panic(ZeroReadPanic);
      }
    }
    assert results[..|results|] == results;
    return Tally(n, err);
  }

  /** After a panic nothing further happens. */
  lemma {:induction false} PanicSticks(rs: seq<ReadResult>, k: nat, write: Writer)
    requires k <= |rs| && Tallied(rs[..k], write).Panic?
    ensures Tallied(rs, write) == Tallied(rs[..k], write)
    decreases |rs|
  {
    if k < |rs| {
      assert rs[..|rs| - 1][..k] == rs[..k];
      PanicSticks(rs[..|rs| - 1], k, write);
    } else {
      assert rs[..k] == rs;
    }
  }

  /** The bytes the writer reports for the first k results. */
  function WrittenSum(rs: seq<ReadResult>, write: Writer, k: nat): int
    requires k <= |rs|
  {
    if k == 0 then 0 else WrittenSum(rs, write, k - 1) + write(k - 1, rs[k - 1].buf).0
  }

  /** n is the sum of the written counts, and WriteTo panics exactly when some
      result had no bytes and no error. */
  lemma {:induction false} TalliedAccounting(rs: seq<ReadResult>, write: Writer)
    ensures Tallied(rs, write).Panic? <==> exists i :: 0 <= i < |rs| && Violates(rs[i])
    ensures Tallied(rs, write).Tally? ==> Tallied(rs, write).n == WrittenSum(rs, write, |rs|)
    decreases |rs|
  {
    if rs != [] {
      var init := rs[..|rs| - 1];
      TalliedAccounting(init, write);
      assert forall k :: 0 <= k <= |init| ==> WrittenSum(init, write, k) == WrittenSum(rs, write, k) by {
        forall k | 0 <= k <= |init|
          ensures WrittenSum(init, write, k) == WrittenSum(rs, write, k)
        {
          WrittenSumPrefix(init, rs, write, k);
        }
      }
      if exists i :: 0 <= i < |init| && Violates(init[i]) {
        var i :| 0 <= i < |init| && Violates(init[i]);
        assert rs[i] == init[i];
      }
      if exists i :: 0 <= i < |rs| && Violates(rs[i]) {
        var i :| 0 <= i < |rs| && Violates(rs[i]);
        if i < |init| {
          assert init[i] == rs[i];
        }
      }
    }
  }

  lemma {:induction false} WrittenSumPrefix(a: seq<ReadResult>, b: seq<ReadResult>, write: Writer, k: nat)
    requires k <= |a| <= |b| && a == b[..|a|]
    ensures WrittenSum(a, write, k) == WrittenSum(b, write, k)
    decreases k
  {
    if k > 0 {
      WrittenSumPrefix(a, b, write, k - 1);
      assert a[k - 1] == b[k - 1];
    }
  }

  /** The error returned is the last result's read error unless it is EOF,
      and otherwise the last Write's error; no results, no error. */
  lemma TalliedError(rs: seq<ReadResult>, write: Writer)
    requires Tallied(rs, write).Tally?
    ensures rs == [] ==> Tallied(rs, write) == Tally(0, None)
    ensures rs != [] ==>
      var last := rs[|rs| - 1];
      Tallied(rs, write).err ==
        (if last.err.Some? && last.err.value.ReadFailure? then Some(last.err.value.failure)
         else write(|rs| - 1, last.buf).1)
  {
  }

  /** A clean end of file is not an error when its write succeeds. */
  lemma EOFNotReported(rs: seq<ReadResult>, write: Writer)
    requires rs != [] && rs[|rs| - 1].err == Some(EOF) && write(|rs| - 1, rs[|rs| - 1].buf).1.None?
    requires Tallied(rs, write).Tally?
    ensures Tallied(rs, write).err.None?
  {
    TalliedError(rs, write);
  }

  /** A write error on one result is overwritten by the next, successful, write. */
  lemma LostWriteError()
    ensures var rs := [ReadResult([1], 1, None), ReadResult([], 0, Some(EOF))];
            var failure := Api.Failure("short write", false);
            var write: Writer := (i: nat, b: seq<bv8>) => if i == 0 then (0, Some(failure)) else (0, None);
            Tallied(rs, write) == Tally(0, None)
  {
    var rs := [ReadResult([1], 1, None), ReadResult([], 0, Some(EOF))];
    var failure := Api.Failure("short write", false);
    var write: Writer := (i: nat, b: seq<bv8>) => if i == 0 then (0, Some(failure)) else (0, None);
    assert rs[..1] == [rs[0]] && rs[..1][..0] == [];
    assert Tallied(rs[..1], write) == Tally(0, Some(failure));
  }

  /** The accounting with the writer's first error kept, as io.WriterTo requires:
      a later successful write does not clear it, and a read error other than
      EOF still takes precedence at the end. */
  function KeptErrorStep(t: Tally, i: nat, r: ReadResult, write: Writer): Tally {
    if t.Panic? then t
    else
      var w := write(i, r.buf);
      var werr := if t.err.Some? then t.err else w.1;
      var err := if r.err.Some? && r.err.value.ReadFailure? then Some(r.err.value.failure) else werr;
      if Violates(r) then Panic(ZeroReadPanic) else Tally(t.n + w.0, err)
  }

  function KeptErrorTally(rs: seq<ReadResult>, write: Writer): Tally
    decreases |rs|
  {
    if rs == [] then Tally(0, None)
    else KeptErrorStep(KeptErrorTally(rs[..|rs| - 1], write), |rs| - 1, rs[|rs| - 1], write)
  }

  predicate AnyFailure(rs: seq<ReadResult>, write: Writer) {
    exists i :: 0 <= i < |rs| && (write(i, rs[i].buf).1.Some? || (rs[i].err.Some? && rs[i].err.value.ReadFailure?))
  }

  /** With the first error kept, WriteTo reports an error exactly when a write or a read failed. */
  lemma {:induction false} KeptErrorReported(rs: seq<ReadResult>, write: Writer)
    requires KeptErrorTally(rs, write).Tally?
    ensures KeptErrorTally(rs, write).err.Some? <==> AnyFailure(rs, write)
    decreases |rs|
  {
    if rs != [] {
      var init := rs[..|rs| - 1];
      assert KeptErrorTally(init, write).Tally?;
      KeptErrorReported(init, write);
      if AnyFailure(init, write) {
        var i :| 0 <= i < |init| && (write(i, init[i].buf).1.Some? || (init[i].err.Some? && init[i].err.value.ReadFailure?));
        assert rs[i] == init[i];
      }
      if AnyFailure(rs, write) {
        var i :| 0 <= i < |rs| && (write(i, rs[i].buf).1.Some? || (rs[i].err.Some? && rs[i].err.value.ReadFailure?));
        if i < |init| {
          assert init[i] == rs[i];
        }
      }
    }
  }

  /** Both accountings agree on the byte count and on when the protocol is violated. */
  lemma {:induction false} KeptErrorSameCount(rs: seq<ReadResult>, write: Writer)
    ensures KeptErrorTally(rs, write).Panic? <==> Tallied(rs, write).Panic?
    ensures Tallied(rs, write).Tally? ==> KeptErrorTally(rs, write).n == Tallied(rs, write).n
    decreases |rs|
  {
    if rs != [] {
      KeptErrorSameCount(rs[..|rs| - 1], write);
    }
  }
}
