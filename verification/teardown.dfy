/** `CloseDecoder`: releases the engine objects and the frame queue and
    resets the counters.  It is also what the destructor and `InitDecode`
    run first. */
module Teardown {
  import opened Session

  /** The calls a teardown may make: destroying the decoder or the parser,
      and freeing the frame queue. */
  predicate IsTeardownCall(c: Call)
  {
    c == DecoderDestroy || c == ParserDestroy || c == QueueFree
  }

  /** The calls `CloseDecoder` makes: each held handle released once, the
      decoder before the parser (the parser drives the decoder), the frame
      queue last, and nothing that is not held. */
  function TeardownCalls(s: Session): (c: seq<Call>)
    ensures forall k :: 0 <= k < |c| ==> IsTeardownCall(c[k])
    ensures DecoderDestroy in c <==> s.hasDecoder
    ensures ParserDestroy in c <==> s.hasParser
    ensures QueueFree in c <==> s.hasQueue
    ensures forall i, j :: 0 <= i < |c| && 0 <= j < |c| && c[i] == DecoderDestroy && c[j] == ParserDestroy
              ==> i < j
    ensures forall i, j :: 0 <= i < j < |c| ==> c[i] != c[j]
    ensures s.hasQueue ==> c[|c| - 1] == QueueFree
  {
    (if s.hasDecoder then [DecoderDestroy] else [])
    + (if s.hasParser then [ParserDestroy] else [])
    + (if s.hasQueue then [QueueFree] else [])
  }

  function CloseDecoder(s: Session): (r: Session)
    ensures IsClosed(r)
    ensures r.createInfo == s.createInfo && r.ignoreFormatChange == s.ignoreFormatChange
    ensures r.trace == s.trace + TeardownCalls(s)
    ensures WaitsBeforeDecode(s.trace) ==> WaitsBeforeDecode(r.trace)
  {
    var calls := TeardownCalls(s);
    AppendWithoutDecode(s.trace, calls);
    Session(s.createInfo, 0, false, s.ignoreFormatChange, false, false, false, s.trace + calls)
  }

  /** Closing twice is closing once: the second call finds nothing to release
      and nothing left to reset. */
  lemma CloseIdempotent(s: Session)
    ensures CloseDecoder(CloseDecoder(s)) == CloseDecoder(s)
  {
    assert TeardownCalls(CloseDecoder(s)) == [];
  }

  /** A closed session stays as it is under `CloseDecoder`. */
  lemma CloseOfClosed(s: Session)
    requires IsClosed(s)
    ensures CloseDecoder(s) == s
  {
    assert TeardownCalls(s) == [];
  }
}
