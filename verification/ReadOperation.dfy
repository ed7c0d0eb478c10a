/** The read operation of the program: from the device's conversions to the two lists of tokens. */
module ReadOperation {
  import opened CaptureAndRead
  import opened CaptureEndToEnd
  import opened CapturedPulses
  import opened CarrierEvents
  import opened CarrierLock
  import opened CarrierMachine
  import opened CodeDuality
  import opened Em4100Decoder
  import opened Em4100Frame
  import opened FirmwareTransfer
  import opened OtherChain
  import opened ReadEndToEnd
  import opened ReadGuarantee
  import opened Readings
  import opened SampleCapture
  import opened Samples
  import opened Sequences
  import opened TransferHistory
  import UsbControl
  import Em4100 = Em4100Machine
  import Resync = Em4100Resync

  // ---- What a list of tokens is ----

  /** As many tokens as a dense capture of 1536 conversions is sure to bring. */
  ghost predicate AsManyAsSure(bits: seq<bool>, d: nat, count: nat) {
    |bits| == RX_SAMPLES && Dense(d, RunSamples(bits)) ==> count >= Guaranteed(d)
  }

  /** The list of the biphase chain when the frame of `id` is on the field in Manchester code. */
  ghost predicate OtherBiphaseTokens(id: Identity, first: nat, last: nat, samples: seq<Sample>, tokens: seq<Token>) {
    var word := CyclicDifferences(id);
    && (forall u: Token, r :: Rotates(word, r, IdentityOf(u)) ==>
          BiphaseTokens(u, first + BiphaseAhead(word, r), last + BiphaseAhead(word, r), samples, tokens))
    && (forall u :: u in tokens ==> exists r :: Rotates(word, r, IdentityOf(u)))
  }

  /** The list of the Manchester chain when the frame of `id` is on the field in biphase code, in case the bits
      accumulated from it repeat: ... */
  ghost predicate OtherManchesterTokens(word: seq<bool>, first: nat, last: nat, samples: seq<Sample>, tokens: seq<Token>) {
    && (forall u: Token, r :: Rotates(word, r, IdentityOf(u)) ==>
          ManchesterTokens(u, first + ManchesterAhead(word, r), last + ManchesterAhead(word, r), samples, tokens))
    && (forall u :: u in tokens ==> exists r :: Rotates(word, r, IdentityOf(u)))
  }

  /** ... and in general: what a fresh EM4100 decoder reports of a stretch of them. */
  ghost predicate NamesOf(bits: seq<bool>, tokens: seq<Token>) {
    && (exists j, k :: 0 <= j <= k <= |bits| && Identities(tokens) == Em4100.Run(Em4100.START, bits[j..k]).out)
    && (forall u :: u in tokens ==> Stands(bits, IdentityOf(u)))
  }

  // ---- From identities to tokens ----

  lemma TokenInList(tokens: seq<Token>, u: Token)
    requires u in tokens
    ensures IdentityOf(u) in Identities(tokens)
  {
    var i :| 0 <= i < |tokens| && tokens[i] == u;
    assert Identities(tokens)[i] == IdentityOf(u);
  }

  lemma NameBiphaseEchoes(id: Identity, first: nat, last: nat, samples: seq<Sample>, tokens: seq<Token>)
    requires BiphaseEchoes(CyclicDifferences(id), first, last, samples, Identities(tokens))
    ensures OtherBiphaseTokens(id, first, last, samples, tokens)
  {
    var word := CyclicDifferences(id);
    forall u: Token, r | Rotates(word, r, IdentityOf(u))
      ensures BiphaseTokens(u, first + BiphaseAhead(word, r), last + BiphaseAhead(word, r), samples, tokens)
    {
      NameBiphase(u, first + BiphaseAhead(word, r), last + BiphaseAhead(word, r), samples, tokens);
    }
    forall u | u in tokens ensures exists r :: Rotates(word, r, IdentityOf(u)) { TokenInList(tokens, u); }
  }

  lemma NameManchesterEchoes(word: seq<bool>, first: nat, last: nat, samples: seq<Sample>, tokens: seq<Token>)
    requires ManchesterEchoes(word, first, last, samples, Identities(tokens))
    ensures OtherManchesterTokens(word, first, last, samples, tokens)
  {
    forall u: Token, r | Rotates(word, r, IdentityOf(u))
      ensures ManchesterTokens(u, first + ManchesterAhead(word, r), last + ManchesterAhead(word, r), samples, tokens)
    {
      NameManchester(u, first + ManchesterAhead(word, r), last + ManchesterAhead(word, r), samples, tokens);
    }
    forall u | u in tokens ensures exists r :: Rotates(word, r, IdentityOf(u)) { TokenInList(tokens, u); }
  }

  lemma NameStanding(bits: seq<bool>, tokens: seq<Token>)
    requires exists j, k :: 0 <= j <= k <= |bits| && Identities(tokens) == Em4100.Run(Em4100.START, bits[j..k]).out
    requires forall u :: u in Identities(tokens) ==> Stands(bits, u)
    ensures NamesOf(bits, tokens)
  {
    forall u | u in tokens ensures Stands(bits, IdentityOf(u)) { TokenInList(tokens, u); }
  }

  // ---- A Manchester field ----

  lemma ManchesterSure(bits: seq<bool>, d: nat, id: Identity, n: nat, ps: seq<Event>, c: nat, e: nat)
    requires ps == ManchesterField(id, n) && Seen(bits, d, ps, c, e)
    requires ManchesterOutcome(id, PulseAt(d, ps, c), PulseAt(d, ps, e), RunSamples(bits), ManchesterIds(RunSamples(bits)))
    ensures AsManyAsSure(bits, d, |ManchesterIds(RunSamples(bits))|)
  {
    if |bits| == RX_SAMPLES && Dense(d, RunSamples(bits)) {
      var samples, first, last := RunSamples(bits), PulseAt(d, ps, c), PulseAt(d, ps, e);
      ManchesterFieldIsPulses(id, n);
      SeenIsClean(bits, d, ps, c, e);
      var lock :| FirstLock(samples, lock) && ManchesterIds(samples) == Replicate(id, ManchesterCount(id, first, last, lock));
      ManchesterEnough(d, id, n, ps, c, e, samples, lock, first, last);
    }
  }

  lemma BiphaseSure(bits: seq<bool>, d: nat, id: Identity, n: nat, ps: seq<Event>, c: nat, e: nat)
    requires BiphaseField(id, n, ps) && Seen(bits, d, ps, c, e) && !Resync.Trapped(id, 2) && !Resync.Trapped(id, 4)
    requires BiphaseOutcome(id, PulseAt(d, ps, c), PulseAt(d, ps, e), RunSamples(bits), BiphaseIds(RunSamples(bits)))
    ensures AsManyAsSure(bits, d, |BiphaseIds(RunSamples(bits))|)
  {
    if |bits| == RX_SAMPLES && Dense(d, RunSamples(bits)) {
      var samples, first, last := RunSamples(bits), PulseAt(d, ps, c), PulseAt(d, ps, e);
      SeenIsClean(bits, d, ps, c, e);
      var lock :| FirstLock(samples, lock) && BiphaseIds(samples) == Replicate(id, BiphaseCount(id, first, last, lock));
      BiphaseEnough(d, id, n, ps, c, e, samples, lock, first, last);
    }
  }

  lemma ManchesterSeenInBiphase(bits: seq<bool>, d: nat, id: Identity, n: nat, ps: seq<Event>, c: nat, e: nat)
    requires ps == ManchesterField(id, n) && Seen(bits, d, ps, c, e)
    ensures var samples := RunSamples(bits);
            BiphaseEchoes(CyclicDifferences(id), PulseAt(d, ps, c), PulseAt(d, ps, e), samples, BiphaseIds(samples))
  {
    ManchesterFieldIsPulses(id, n);
    SeenIsClean(bits, d, ps, c, e);
    ManchesterFieldInBiphaseChain(d, id, n, PulseAt(d, ps, c), PulseAt(d, ps, e), RunSamples(bits));
  }

  /** Both lists, when `t` is on a Manchester field: the Manchester list is that token, once for each whole frame behind
      the lock; the biphase list is any token whose frame is a rotation of the cyclic differences of its frame. */
  ghost predicate ManchesterLists(bits: seq<bool>, d: nat, t: Token, ps: seq<Event>, c: nat, e: nat,
                                  manchester: seq<Token>, biphase: seq<Token>)
    requires Seen(bits, d, ps, c, e)
  {
    var first, last, samples := PulseAt(d, ps, c), PulseAt(d, ps, e), RunSamples(bits);
    && ManchesterTokens(t, first, last, samples, manchester)
    && AsManyAsSure(bits, d, |manchester|)
    && OtherBiphaseTokens(IdentityOf(t), first, last, samples, biphase)
  }

  lemma ListsOfManchesterField(bits: seq<bool>, d: nat, t: Token, n: nat, ps: seq<Event>, c: nat, e: nat,
                               manchester: seq<Token>, biphase: seq<Token>)
    requires ps == ManchesterField(IdentityOf(t), n) && Seen(bits, d, ps, c, e)
    requires Identities(manchester) == ManchesterIds(RunSamples(bits)) && Identities(biphase) == BiphaseIds(RunSamples(bits))
    ensures ManchesterLists(bits, d, t, ps, c, e, manchester, biphase)
  {
    var first, last, samples := PulseAt(d, ps, c), PulseAt(d, ps, e), RunSamples(bits);
    ManchesterSeen(bits, d, IdentityOf(t), n, c, e);
    NameManchester(t, first, last, samples, manchester);
    ManchesterSure(bits, d, IdentityOf(t), n, ps, c, e);
    ManchesterSeenInBiphase(bits, d, IdentityOf(t), n, ps, c, e);
    NameBiphaseEchoes(IdentityOf(t), first, last, samples, biphase);
  }

  // ---- A biphase field ----

  /** The level before the first pulse. */
  function RestLevel(ps: seq<Event>): bool
    requires AllPulses(ps)
  {
    |ps| > 0 && !ps[0].isHigh
  }

  lemma BiphaseSeenInManchester(bits: seq<bool>, d: nat, id: Identity, n: nat, ps: seq<Event>, c: nat, e: nat, tokens: seq<Token>)
    requires BiphaseField(id, n, ps) && Seen(bits, d, ps, c, e) && Identities(tokens) == ManchesterIds(RunSamples(bits))
    ensures NamesOf(Accumulated(RestLevel(ps), id, n), tokens)
  {
    SeenIsClean(bits, d, ps, c, e);
    BiphaseFieldInManchesterChain(d, id, n, ps, RestLevel(ps), PulseAt(d, ps, c), PulseAt(d, ps, e), RunSamples(bits));
    NameStanding(Accumulated(RestLevel(ps), id, n), tokens);
  }

  lemma EvenSeenInManchester(bits: seq<bool>, d: nat, id: Identity, n: nat, ps: seq<Event>, c: nat, e: nat, tokens: seq<Token>)
    requires BiphaseField(id, n, ps) && Seen(bits, d, ps, c, e) && Identities(tokens) == ManchesterIds(RunSamples(bits))
    requires Parity(Columns(id))
    ensures OtherManchesterTokens(RunningXor(RestLevel(ps), Frame(id)), PulseAt(d, ps, c), PulseAt(d, ps, e),
                                  RunSamples(bits), tokens)
  {
    var first, last, samples := PulseAt(d, ps, c), PulseAt(d, ps, e), RunSamples(bits);
    SeenIsClean(bits, d, ps, c, e);
    EvenFieldInManchesterChain(d, id, n, ps, RestLevel(ps), first, last, samples);
    NameManchesterEchoes(RunningXor(RestLevel(ps), Frame(id)), first, last, samples, tokens);
  }

  /** Both lists, when `t` is on a biphase field: the biphase list is that token, unless it is trapped; the Manchester
      list is what a fresh decoder reports of a stretch of the bits accumulated from its frame, and if that has an even
      number of ones, any token whose frame is a rotation of the word accumulated from it. */
  ghost predicate BiphaseLists(bits: seq<bool>, d: nat, t: Token, n: nat, ps: seq<Event>, c: nat, e: nat,
                               manchester: seq<Token>, biphase: seq<Token>)
    requires Seen(bits, d, ps, c, e)
  {
    var first, last, samples, id := PulseAt(d, ps, c), PulseAt(d, ps, e), RunSamples(bits), IdentityOf(t);
    && BiphaseTokens(t, first, last, samples, biphase)
    && (!Resync.Trapped(id, 2) && !Resync.Trapped(id, 4) ==> AsManyAsSure(bits, d, |biphase|))
    && NamesOf(Accumulated(RestLevel(ps), id, n), manchester)
    && (Parity(Columns(id)) ==> OtherManchesterTokens(RunningXor(RestLevel(ps), Frame(id)), first, last, samples, manchester))
  }

  lemma ListsOfBiphaseField(bits: seq<bool>, d: nat, t: Token, id: Identity, n: nat, ps: seq<Event>, c: nat, e: nat,
                            manchester: seq<Token>, biphase: seq<Token>)
    requires id == IdentityOf(t) && BiphaseField(id, n, ps) && Seen(bits, d, ps, c, e)
    requires Identities(manchester) == ManchesterIds(RunSamples(bits)) && Identities(biphase) == BiphaseIds(RunSamples(bits))
    ensures BiphaseLists(bits, d, t, n, ps, c, e, manchester, biphase)
  {
    BiphaseSeen(bits, d, id, n, ps, c, e);
    NameBiphase(t, PulseAt(d, ps, c), PulseAt(d, ps, e), RunSamples(bits), biphase);
    if !Resync.Trapped(id, 2) && !Resync.Trapped(id, 4) { BiphaseSure(bits, d, id, n, ps, c, e); }
    BiphaseSeenInManchester(bits, d, id, n, ps, c, e, manchester);
    if Parity(Columns(id)) { EvenSeenInManchester(bits, d, id, n, ps, c, e, manchester); }
  }

  // ---- Whatever is on the field ----

  /** What is said of the two lists when `bits` are the signals captured. */
  ghost predicate ReadsField(bits: seq<bool>, manchester: seq<Token>, biphase: seq<Token>) {
    && (forall d, t, n, c, e :: Seen(bits, d, ManchesterField(IdentityOf(t), n), c, e) ==>
          ManchesterLists(bits, d, t, ManchesterField(IdentityOf(t), n), c, e, manchester, biphase))
    && (forall d, t, n, ps, c, e :: BiphaseField(IdentityOf(t), n, ps) && Seen(bits, d, ps, c, e) ==>
          BiphaseLists(bits, d, t, n, ps, c, e, manchester, biphase))
  }

  /** From the signals to the lists of tokens, for every token, either code, every rate and every stretch of the field. */
  lemma CapturedTokens(bits: seq<bool>, manchester: seq<Token>, biphase: seq<Token>)
    requires Identities(manchester) == ManchesterIds(RunSamples(bits)) && Identities(biphase) == BiphaseIds(RunSamples(bits))
    ensures ReadsField(bits, manchester, biphase)
  {
    forall d, t, n, c, e | Seen(bits, d, ManchesterField(IdentityOf(t), n), c, e)
      ensures ManchesterLists(bits, d, t, ManchesterField(IdentityOf(t), n), c, e, manchester, biphase)
    {
      ListsOfManchesterField(bits, d, t, n, ManchesterField(IdentityOf(t), n), c, e, manchester, biphase);
    }
    forall d, t, n, ps, c, e | BiphaseField(IdentityOf(t), n, ps) && Seen(bits, d, ps, c, e)
      ensures BiphaseLists(bits, d, t, n, ps, c, e, manchester, biphase)
    {
      ListsOfBiphaseField(bits, d, t, IdentityOf(t), n, ps, c, e, manchester, biphase);
    }
  }

  // ---- In readings of the converter ----

  /** Conversions from `c` to `e` in a field that lasts long enough, each of which reads its level clearly: at most 236
      at a low one, at least 249 at a high one. */
  predicate Sensed(readings: seq<nat>, d: nat, ps: seq<Event>, c: nat, e: nat) {
    && IsDivider(d) && AllPulses(ps) && c <= e < Offset(d, ps, |ps|) && |readings| == e + 1 - c
    && forall k :: 0 <= k < |readings| ==>
         if ps[PulseAt(d, ps, c + k)].isHigh then readings[k] >= 249 else readings[k] <= 236
  }

  lemma {:induction false} StretchAt(d: nat, ps: seq<Event>, c: nat, end: nat, k: nat)
    requires IsDivider(d) && AllPulses(ps) && c + k < end <= Offset(d, ps, |ps|)
    ensures Stretch(d, ps, c, end)[k] == !ps[PulseAt(d, ps, c + k)].isHigh
    decreases end
  {
    if c + k < end - 1 { StretchAt(d, ps, c, end - 1, k); }
  }

  /** A clear reading says what it is. */
  lemma ClearReading(readings: seq<nat>, n: nat)
    requires n < |readings| && !Unclear(readings[n])
    ensures SaysLow(readings[..n + 1]) <==> readings[n] <= 236
  {
    assert readings[..n + 1] == readings[..n] + [readings[n]];
    SaysNext(readings[..n], readings[n]);
  }

  lemma SensedAt(readings: seq<nat>, d: nat, ps: seq<Event>, c: nat, e: nat, k: nat)
    requires Sensed(readings, d, ps, c, e) && k < |readings|
    ensures !Unclear(readings[k]) && (readings[k] <= 236) == Stretch(d, ps, c, e + 1)[k]
  {
    StretchAt(d, ps, c, e + 1, k);
  }

  lemma BitOfReading(h: History, bits: seq<bool>, k: nat)
    requires BitsRead(h, bits) && k < 1536 && !Unclear(h.readings[h.waits..][k])
    ensures bits[k] == (h.readings[h.waits..][k] <= 236)
  {
    ClearReading(h.readings, h.waits + k);
  }

  lemma SensedIsSeen(h: History, bits: seq<bool>, d: nat, ps: seq<Event>, c: nat, e: nat)
    requires BitsRead(h, bits) && Sensed(h.readings[h.waits..], d, ps, c, e)
    ensures Seen(bits, d, ps, c, e)
  {
    forall k | 0 <= k < 1536 ensures bits[k] == Stretch(d, ps, c, e + 1)[k] {
      SensedAt(h.readings[h.waits..], d, ps, c, e, k);
      BitOfReading(h, bits, k);
    }
  }

  /** What is said of the two lists when these are the readings behind the edge, and `bits` the signals captured. */
  ghost predicate ReadsLevels(readings: seq<nat>, bits: seq<bool>, manchester: seq<Token>, biphase: seq<Token>) {
    && (forall d, t, n, c, e :: Sensed(readings, d, ManchesterField(IdentityOf(t), n), c, e) ==>
          && Seen(bits, d, ManchesterField(IdentityOf(t), n), c, e)
          && ManchesterLists(bits, d, t, ManchesterField(IdentityOf(t), n), c, e, manchester, biphase))
    && (forall d, t, n, ps, c, e :: BiphaseField(IdentityOf(t), n, ps) && Sensed(readings, d, ps, c, e) ==>
          && Seen(bits, d, ps, c, e)
          && BiphaseLists(bits, d, t, n, ps, c, e, manchester, biphase))
  }

  lemma FieldInReadings(h: History, bits: seq<bool>, manchester: seq<Token>, biphase: seq<Token>)
    requires BitsRead(h, bits) && ReadsField(bits, manchester, biphase)
    ensures ReadsLevels(h.readings[h.waits..], bits, manchester, biphase)
  {
    forall d, t, n, c, e | Sensed(h.readings[h.waits..], d, ManchesterField(IdentityOf(t), n), c, e)
      ensures Seen(bits, d, ManchesterField(IdentityOf(t), n), c, e)
    {
      SensedIsSeen(h, bits, d, ManchesterField(IdentityOf(t), n), c, e);
    }
    forall d, t, n, ps, c, e | BiphaseField(IdentityOf(t), n, ps) && Sensed(h.readings[h.waits..], d, ps, c, e)
      ensures Seen(bits, d, ps, c, e)
    {
      SensedIsSeen(h, bits, d, ps, c, e);
    }
  }

  /** The operation: there are lists exactly if the device is done and a falling edge came in time. They are as said of
      the signals captured, which are those that the readings decide, and so of every field whose levels were read clearly
      behind the edge. */
  method CaptureTokens(f: Firmware, d: UsbControl.Driver, steps: seq<Step>)
    returns (ok: bool, manchester: seq<Token>, biphase: seq<Token>, ghost bits: seq<bool>)
    requires f.Valid() && f.state == IDLE
    requires d.Valid() && d.usbRxLen == 0
    modifies f, f.ioBuffer, d, d.usbTxBuf
    ensures f.Valid() && d.Valid()
    ensures ok <==> f.state == IDLE && !NoEdgeInTime(f.h)
    ensures ok ==> CapturedInTime(f.h, bits) && ReadsField(bits, manchester, biphase)
    ensures ok ==> ReadsLevels(f.h.readings[f.h.waits..], bits, manchester, biphase)
  {
    manchester, biphase := [], [];
    var samples;
    ok, samples, bits := Capture(f, d, steps);
    if ok {
      manchester, biphase := Read(samples);
      CapturedTokens(bits, manchester, biphase);
      FieldInReadings(f.h, bits, manchester, biphase);
    }
  }
}
