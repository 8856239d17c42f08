/**
 GPU queries of the D3D11 command list: timestamp brackets, the timestamp
 delta, the video-memory query with its process-wide support flag, and query
 release.
 */
module Queries {
  import opened RhiDevice

  /** Largest value of an unsigned 64-bit integer plus one. */
  const UINT64: nat := 0x1_0000_0000_0000_0000

  /** Timestamp_Start: begins the disjoint query, then records the start timestamp. */
  function TimestampStart(queryDisjoint: Ref, queryStart: Ref): (r: seq<Call>)
    requires queryDisjoint != Null && queryStart != Null
    ensures r == [QueryBegin(queryDisjoint), QueryEnd(queryStart)]
    ensures Inert(r)
  {
    [QueryBegin(queryDisjoint), QueryEnd(queryStart)]
  }

  /** Timestamp_End: records the end timestamp, then ends the disjoint query. */
  function TimestampEnd(queryDisjoint: Ref, queryEnd: Ref): (r: seq<Call>)
    requires queryDisjoint != Null && queryEnd != Null
    ensures r == [QueryEnd(queryEnd), QueryEnd(queryDisjoint)]
    ensures Inert(r)
  {
    [QueryEnd(queryEnd), QueryEnd(queryDisjoint)]
  }

  /**
   A start followed by an end brackets both timestamps inside the disjoint
   query: the disjoint query is the first to begin and the last to end, and
   the start timestamp is taken before the end timestamp.
   */
  lemma TimestampsBracketed(queryDisjoint: Ref, queryStart: Ref, queryEnd: Ref)
    requires queryDisjoint != Null && queryStart != Null && queryEnd != Null
    ensures var t := TimestampStart(queryDisjoint, queryStart) + TimestampEnd(queryDisjoint, queryEnd);
      && |t| == 4
      && t[0] == QueryBegin(queryDisjoint) && t[|t| - 1] == QueryEnd(queryDisjoint)
      && (forall i :: 0 < i < |t| - 1 ==> t[i].QueryEnd? && t[i].query != queryDisjoint ==> t[i].query in {queryStart, queryEnd})
      && t[1] == QueryEnd(queryStart) && t[2] == QueryEnd(queryEnd)
  {
  }

  /**
   The tick count between two timestamps, in unsigned 64-bit arithmetic, or
   zero when the disjoint query reports the timestamps unreliable. The
   conversion to milliseconds is floating point and not modelled.
   */
  function TimestampTicks(disjoint: bool, startTime: nat, endTime: nat): (r: nat)
    requires startTime < UINT64 && endTime < UINT64
    ensures r < UINT64
    ensures disjoint ==> r == 0
    ensures !disjoint && startTime <= endTime ==> r == endTime - startTime
    ensures !disjoint && endTime < startTime ==> r == UINT64 - (startTime - endTime)
  {
    if disjoint then 0 else (endTime - startTime) % UINT64
  }

  /** The ticks of a reliable interval added to its start give back its end, modulo 2^64. */
  lemma TicksRoundTrip(startTime: nat, endTime: nat)
    requires startTime < UINT64 && endTime < UINT64
    ensures (startTime + TimestampTicks(false, startTime, endTime)) % UINT64 == endTime
  {
  }

  /** What asking the adapter for local video memory produced. */
  datatype MemoryQuery =
    | NoPhysicalDevice          // the device has no primary physical device
    | NoAdapter                 // the physical device carries no adapter
    | QueryFailed               // the adapter refused the query
    | QuerySucceeded(usage: nat)  // bytes currently used

  /** Gpu_GetMemoryUsed's answer and the support flag afterwards. */
  datatype MemoryAnswer = MemoryAnswer(megabytes: nat, supported: bool)

  /** Bytes to whole megabytes, truncated to the unsigned 32-bit result. */
  function Megabytes(bytes: nat): (r: nat)
    ensures r < UINT32
    ensures bytes / 1024 / 1024 < UINT32 ==> r == bytes / (1024 * 1024)
  {
    (bytes / 1024 / 1024) % UINT32
  }

  /**
   Gpu_GetMemoryUsed. Without support it answers 0 without asking; a failed
   query answers 0 and withdraws support for good; a missing physical device
   or adapter answers 0 and leaves support as it was.
   */
  function GetMemoryUsed(supported: bool, query: MemoryQuery): (r: MemoryAnswer)
    ensures !supported ==> r == MemoryAnswer(0, false)
    ensures r.supported <==> supported && !query.QueryFailed?
    ensures r.megabytes != 0 ==> supported && query.QuerySucceeded? && r.megabytes == Megabytes(query.usage)
    ensures supported && query.QuerySucceeded? ==> r.megabytes == Megabytes(query.usage)
  {
    if !supported then MemoryAnswer(0, false)
    else match query
      case QuerySucceeded(usage) => MemoryAnswer(Megabytes(usage), true)
      case QueryFailed => MemoryAnswer(0, false)
      case _ => MemoryAnswer(0, true)
  }

  /** Answers to a series of memory queries, threading the support flag. */
  function MemoryQueries(supported: bool, queries: seq<MemoryQuery>): (r: seq<nat>)
    ensures |r| == |queries|
    decreases |queries|
  {
    if queries == [] then []
    else
      var a := GetMemoryUsed(supported, queries[0]);
      [a.megabytes] + MemoryQueries(a.supported, queries[1..])
  }

  /** Once support is withdrawn, every later query answers 0. */
  lemma {:induction false} UnsupportedAnswersZero(queries: seq<MemoryQuery>)
    ensures forall i :: 0 <= i < |queries| ==> MemoryQueries(false, queries)[i] == 0
    decreases |queries|
  {
    if queries != [] {
      UnsupportedAnswersZero(queries[1..]);
      var r := MemoryQueries(false, queries);
      assert r == [0] + MemoryQueries(false, queries[1..]);
    }
  }

  /**
   A failed query disables the memory query permanently: every answer after
   the first failure is 0, whatever the adapter would report.
   */
  lemma {:induction false} FailureIsPermanent(supported: bool, queries: seq<MemoryQuery>, k: nat)
    requires k < |queries| && queries[k].QueryFailed?
    ensures forall i :: k <= i < |queries| ==> MemoryQueries(supported, queries)[i] == 0
    decreases k
  {
    var a := GetMemoryUsed(supported, queries[0]);
    var r := MemoryQueries(supported, queries);
    assert r == [a.megabytes] + MemoryQueries(a.supported, queries[1..]);
    if k == 0 {
      UnsupportedAnswersZero(queries[1..]);
    } else {
      FailureIsPermanent(a.supported, queries[1..], k - 1);
    }
  }

  /**
   Gpu_QueryRelease: a null query is left alone; otherwise the query is
   released once and the caller's handle is nulled.
   */
  function QueryRelease(query: Ref): (r: (seq<Call>, Ref))
    ensures r.1 == Null
    ensures r.0 == [] <==> query == Null
    ensures query != Null ==> r.0 == [Call.QueryRelease(query)]
  {
    if query == Null then ([], Null) else ([Call.QueryRelease(query)], Null)
  }

  /** Releasing twice through the same handle releases the query exactly once. */
  lemma ReleaseTwiceReleasesOnce(query: Ref)
    ensures var first := QueryRelease(query);
      var second := QueryRelease(first.1);
      second.0 == [] && first.0 + second.0 == (if query == Null then [] else [Call.QueryRelease(query)])
  {
  }
}
