/**
 * SamplePool, and what the presenter has to keep true for it to count its samples correctly.
 */
module SamplePools {
  import opened Common
  import opened Media

  const PRESENTER_BUFFER_COUNT := 3

  class SamplePool {
    var m_VideoSampleQueue: seq<Sample>
    var m_bInitialized: bool
    var m_cPending: nat  // a DWORD

    constructor ()
      ensures m_VideoSampleQueue == [] && !m_bInitialized && m_cPending == 0
    {
      m_VideoSampleQueue, m_bInitialized, m_cPending := [], false, 0;
    }

    method GetSample() returns (hr: HResult, sample: Option<Sample>)
      modifies this
      ensures m_bInitialized == old(m_bInitialized)
      ensures hr == if !m_bInitialized then MF_E_NOT_INITIALIZED
                    else if old(m_VideoSampleQueue) == [] then MF_E_SAMPLEALLOCATOR_EMPTY else S_OK
      ensures if hr == S_OK
        then sample == Some(old(m_VideoSampleQueue)[0]) && m_VideoSampleQueue == old(m_VideoSampleQueue)[1..]
             && m_cPending == (old(m_cPending) + 1) % TWO32
        else sample == None && m_VideoSampleQueue == old(m_VideoSampleQueue) && m_cPending == old(m_cPending)
    {
      if !m_bInitialized {
        return MF_E_NOT_INITIALIZED, None;
      }
      if m_VideoSampleQueue == [] {
        return MF_E_SAMPLEALLOCATOR_EMPTY, None;
      }
      sample := Some(m_VideoSampleQueue[0]);
      m_VideoSampleQueue := m_VideoSampleQueue[1..];
      m_cPending := (m_cPending + 1) % TWO32;
      return S_OK, sample;
    }

    /** Nothing checks that the sample was taken from the pool: the counter of an idle pool wraps around. */
    method ReturnSample(sample: Sample) returns (hr: HResult)
      modifies this
      ensures m_bInitialized == old(m_bInitialized)
      ensures hr == if !m_bInitialized then MF_E_NOT_INITIALIZED else S_OK
      ensures if hr == S_OK
        then m_VideoSampleQueue == old(m_VideoSampleQueue) + [sample]
             && m_cPending == (if old(m_cPending) == 0 then TWO32 - 1 else old(m_cPending) - 1)
        else m_VideoSampleQueue == old(m_VideoSampleQueue) && m_cPending == old(m_cPending)
    {
      if !m_bInitialized {
        return MF_E_NOT_INITIALIZED;
      }
      m_VideoSampleQueue := m_VideoSampleQueue + [sample];
      m_cPending := if m_cPending == 0 then TWO32 - 1 else m_cPending - 1;
      return S_OK;
    }

    predicate AreSamplesPending()
      reads this
    {
      m_bInitialized && m_cPending > 0
    }

    method Initialize(samples: seq<Sample>) returns (hr: HResult)
      modifies this
      ensures m_bInitialized && m_cPending == old(m_cPending)
      ensures hr == if old(m_bInitialized) then E_INVALIDREQUEST else S_OK
      ensures m_VideoSampleQueue == old(m_VideoSampleQueue) + if hr == S_OK then samples else []
    {
      if m_bInitialized {
        return E_INVALIDREQUEST;
      }
      var i := 0;
      while i < |samples|
        invariant 0 <= i <= |samples|
        invariant m_VideoSampleQueue == old(m_VideoSampleQueue) + samples[..i]
        invariant m_cPending == old(m_cPending)
      {
        m_VideoSampleQueue := m_VideoSampleQueue + [samples[i]];
        i := i + 1;
      }
      m_bInitialized := true;
      return S_OK;
    }

    method Clear()
      modifies this
      ensures m_VideoSampleQueue == [] && !m_bInitialized && m_cPending == 0
    {
      m_VideoSampleQueue, m_bInitialized, m_cPending := [], false, 0;
    }
  }

  // ----- Samples in circulation -----

  /** The samples of the current generation among those outside the pool. */
  ghost function Current(out: set<Sample>, generation: nat): set<Sample> {
    set s | s in out && s.generation == generation
  }

  /**
   * The pool accounts for its samples: what is not free is out, everything free is of the current
   * generation, and without a pool nothing that is out is of the current generation.
   */
  ghost predicate Accounted(free: seq<Sample>, initialized: bool, pending: nat, out: set<Sample>, generation: nat,
                            nextId: nat) {
    && pending == |Current(out, generation)|
    && |free| + pending == (if initialized then PRESENTER_BUFFER_COUNT else 0)
    && (forall i, j :: 0 <= i < j < |free| ==> free[i] != free[j])
    && (forall s :: s in free ==> s.generation == generation && s !in out && s.id < nextId)
    && (forall s :: s in out ==> s.generation <= generation && s.id < nextId)
  }

  lemma AccountTaken(free: seq<Sample>, pending: nat, out: set<Sample>, generation: nat, nextId: nat)
    requires Accounted(free, true, pending, out, generation, nextId) && free != []
    ensures Accounted(free[1..], true, (pending + 1) % TWO32, out + {free[0]}, generation, nextId)
  {
    assert free == [free[0]] + free[1..];
    assert Current(out + {free[0]}, generation) == Current(out, generation) + {free[0]};
  }

  /** A sample of the current generation that comes back finds an initialised pool with a sample pending. */
  lemma AccountReturned(free: seq<Sample>, initialized: bool, pending: nat, out: set<Sample>, generation: nat,
                        nextId: nat, s: Sample)
    requires Accounted(free, initialized, pending, out, generation, nextId) && s in out && s.generation == generation
    ensures initialized && pending > 0
    ensures Accounted(free + [s], true, pending - 1, out - {s}, generation, nextId)
  {
    assert s in Current(out, generation);
    assert Current(out - {s}, generation) == Current(out, generation) - {s};
  }

  /** A stale sample that is disposed of changes nothing. */
  lemma AccountDisposed(free: seq<Sample>, initialized: bool, pending: nat, out: set<Sample>, generation: nat,
                        nextId: nat, s: Sample)
    requires Accounted(free, initialized, pending, out, generation, nextId) && s.generation != generation
    ensures Accounted(free, initialized, pending, out - {s}, generation, nextId)
  {
    assert Current(out - {s}, generation) == Current(out, generation);
  }

  /** A new generation starts without a pool. */
  lemma AccountCleared(free: seq<Sample>, initialized: bool, pending: nat, out: set<Sample>, generation: nat,
                       nextId: nat)
    requires Accounted(free, initialized, pending, out, generation, nextId)
    ensures Accounted([], false, 0, out, generation + 1, nextId)
  {
    assert Current(out, generation + 1) == {};
  }

  function NewSamples(generation: nat, nextId: nat): (s: seq<Sample>)
    ensures |s| == PRESENTER_BUFFER_COUNT
  {
    seq(PRESENTER_BUFFER_COUNT, i requires 0 <= i < PRESENTER_BUFFER_COUNT => Sample(nextId + i, generation))
  }

  lemma AccountFilled(out: set<Sample>, generation: nat, nextId: nat)
    requires Accounted([], false, 0, out, generation, nextId)
    ensures Accounted(NewSamples(generation, nextId), true, 0, out, generation, nextId + PRESENTER_BUFFER_COUNT)
  {}

  // ----- Tokens -----

  /** The token of a generation: a DWORD counter. */
  function Token(generation: nat): nat {
    generation % TWO32
  }

  /** Tokens tell generations apart unless they lie a multiple of 2^32 apart. */
  lemma TokenTells(g: nat, h: nat)
    requires g <= h
    ensures Token(g) == Token(h) <==> (h - g) % TWO32 == 0
  {
    assert g == TWO32 * (g / TWO32) + g % TWO32;
    assert h == TWO32 * (h / TWO32) + h % TWO32;
    assert h - g == TWO32 * ((h - g) / TWO32) + (h - g) % TWO32;
  }
}
