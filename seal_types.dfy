/**
 * The types of seal/types.go: the mode constants, the SealCommand, the
 * SealResult (with its accessors from seal/cli.go) and the
 * byLongestPathDescending sort helper.
 */
module SealTypes {
  import opened Wrappers
  import Api

  const Name := "seal"
  const ModeSeal := Name
  const ModeCopy := "sealed-copy"

  /** The mode NewCommand picks: sealing in place without writers, copying with them. */
  function ModeFor(nWriters: int): (mode: string)
    ensures mode == ModeSeal <==> nWriters == 0
    ensures mode == ModeCopy <==> nWriters != 0
  {
    if nWriters == 0 then ModeSeal else ModeCopy
  }

  /** A SealResult: the fields of the embedded api.BasicResult, and the source
      of a copy operation ("" when unset). */
  datatype SealResult = SealResult(
    finfo: Api.FileInfo,
    msg: string,
    prio: Api.Priority,
    err: Option<Api.Failure>,
    source: string)
  {
    /** Info: an error takes over the text and forces Error priority. */
    function Info(): (r: (string, Api.Priority))
      ensures err.Some? ==> r.0 == err.value.text && r.1 == Api.Error
      ensures err.None? ==> r.0 == msg && r.1 == prio
    {
      if err.Some? then (err.value.text, Api.Error) else (msg, prio)
    }

    /** Error: the error the result carries, if any. */
    function Error(): (e: Option<Api.Failure>)
      ensures e.Some? <==> err.Some?
      ensures e.Some? ==> Info() == (e.value.text, Api.Error)
    {
      err
    }

    /** A generator sends the root as Path and leaves RelaPath unset. */
    function FromGenerator(): (b: bool)
      ensures b <==> finfo.relaPath == ""
    {
      |finfo.relaPath| == 0
    }
  }

  /** The command state the core reads: mode, trees, reader count and the
      number of rooted writers. */
  class SealCommand {
    var mode: string
    var trees: seq<string>
    var nReaders: int
    var nWriters: int

    /** NewCommand: the mode follows the writer count; BasicRunner.Init stores
        the trees and counts. */
    constructor NewCommand(trees: seq<string>, nReaders: int, nWriters: int)
      ensures mode == ModeFor(nWriters)
      ensures this.trees == trees && this.nReaders == nReaders && this.nWriters == nWriters
    {
      if nWriters == 0 {
        mode := ModeSeal;
      } else {
        mode := ModeCopy;
      }
      this.trees := trees;
      this.nReaders := nReaders;
      this.nWriters := nWriters;
    }
  }

  // byLongestPathDescending

  function Len(a: seq<string>): nat {
    |a|
  }

  predicate Less(a: seq<string>, i: int, j: int)
    requires 0 <= i < |a| && 0 <= j < |a|
  {
    |a[i]| > |a[j]|
  }

  /** Less is a strict order on positions, and Len is the length. */
  lemma LessIsStrictOrder(a: seq<string>, i: int, j: int, k: int)
    requires 0 <= i < |a| && 0 <= j < |a| && 0 <= k < |a|
    ensures Len(a) == |a|
    ensures Less(a, i, j) <==> |a[i]| > |a[j]|
    ensures !Less(a, i, i)
    ensures Less(a, i, j) ==> !Less(a, j, i)
    ensures Less(a, i, j) && Less(a, j, k) ==> Less(a, i, k)
  {
  }

  /** Swap exchanges exactly two positions. */
  method Swap(a: array<string>, i: int, j: int)
    requires 0 <= i < a.Length && 0 <= j < a.Length
    modifies a
    ensures a[..] == old(a[..])[i := old(a[j])][j := old(a[i])]
    ensures multiset(a[..]) == multiset(old(a[..]))
  {
    a[i], a[j] := a[j], a[i];
  }

  /** sort.Sort's result: no later element is Less than an earlier one. */
  predicate SortedLongestFirst(a: seq<string>) {
    forall i, j :: 0 <= i < j < |a| ==> !Less(a, j, i)
  }

  /** A sorted sequence has non-increasing lengths. */
  lemma SortedLengths(a: seq<string>, i: int, j: int)
    requires SortedLongestFirst(a) && 0 <= i <= j < |a|
    ensures |a[i]| >= |a[j]|
  {
    if i < j {
      assert !Less(a, j, i);
    }
  }

  /** The neighbours at i and i + 1 are in order. */
  predicate InOrderAt(a: seq<string>, i: int)
    requires 0 <= i < |a| - 1
  {
    !Less(a, i + 1, i)
  }

  /** Checking neighbours is enough: adjacent pairs in order make the whole sequence sorted. */
  lemma {:induction false} AdjacentSorted(a: seq<string>)
    requires forall i :: 0 <= i < |a| - 1 ==> InOrderAt(a, i)
    ensures SortedLongestFirst(a)
    decreases |a|
  {
    if |a| > 1 {
      var b := a[1..];
      forall i | 0 <= i < |b| - 1
        ensures InOrderAt(b, i)
      {
        assert InOrderAt(a, i + 1);
      }
      AdjacentSorted(b);
      forall i, j | 0 <= i < j < |a|
        ensures !Less(a, j, i)
      {
        assert InOrderAt(a, 0);
        if i > 0 {
          assert !Less(b, j - 1, i - 1);
        } else if j > 1 {
          assert !Less(b, j - 1, 0);
        }
      }
    }
  }
}
