/** The tag that is never read: the sparse frame, from the conversions of its field on. */
module SparseCapture {
  import opened CaptureAndRead
  import opened CapturedPulses
  import opened Em4100Decoder
  import opened ReadEndToEnd
  import opened ReadPipeline
  import opened SampleCapture
  import opened Samples
  import opened SparseFrame

  lemma WholeIsNominal(d: nat, n: nat, first: nat, samples: seq<Sample>)
    requires d == 32 || d == 64
    requires AllPulses(ManchesterField(SPARSE, n)) && WholePulses(d, ManchesterField(SPARSE, n), first, samples)
    ensures forall i :: 1 <= i < |samples| ==> Nominal(d, samples[i])
  {
  }

  lemma SparseSampled(d: nat, n: nat, first: nat, last: nat, samples: seq<Sample>)
    requires d == 32 || d == 64
    requires AllPulses(ManchesterField(SPARSE, n)) && WholePulses(d, ManchesterField(SPARSE, n), first, samples)
    requires CleanPulses(d, ManchesterField(SPARSE, n), first, last, samples)
    ensures ManchesterIds(samples) == [] && BiphaseIds(samples) == []
  {
    var p := ManchesterPulses(SPARSE);
    ManchesterFollows(d, SPARSE, n, first, last, samples);
    WholeIsNominal(d, n, first, samples);
    DivMod(last, p);
    SparseNeverRead(d, last / p, last % p, first, samples);
  }

  /** Whichever stretch of its field is captured at RF/32 or RF/64, customer id 0 with token 0 is not reported. */
  lemma SparseNeverCaptured(bits: seq<bool>, d: nat, n: nat, c: nat, e: nat, manchester: seq<Token>, biphase: seq<Token>)
    requires d == 32 || d == 64
    requires Seen(bits, d, ManchesterField(IdentityOf(Token(0, 0)), n), c, e)
    requires Identities(manchester) == ManchesterIds(RunSamples(bits))
    requires Identities(biphase) == BiphaseIds(RunSamples(bits))
    ensures manchester == [] && biphase == []
  {
    SparseIsZero();
    SparseSeen(bits, d, n, c, e);
  }

  lemma SparseSeen(bits: seq<bool>, d: nat, n: nat, c: nat, e: nat)
    requires d == 32 || d == 64
    requires Seen(bits, d, ManchesterField(SPARSE, n), c, e)
    ensures ManchesterIds(RunSamples(bits)) == [] && BiphaseIds(RunSamples(bits)) == []
  {
    var ps := ManchesterField(SPARSE, n);
    ManchesterFieldIsPulses(SPARSE, n);
    SeenIsClean(bits, d, ps, c, e);
    CaptureIsWhole(d, ps, c, e);
    SparseSampled(d, n, PulseAt(d, ps, c), PulseAt(d, ps, e), RunSamples(bits));
  }
}
