/** Both decoder chains behind the carrier stage, and the notifier that feeds them. */
module CarrierListeners {
  import opened Machines
  import opened CarrierEvents
  import opened Em4100Frame
  import opened Em4100Decoder
  import opened ManchesterDecoder
  import opened BiphaseDecoder
  import Em4100 = Em4100Machine
  import Manchester = ManchesterMachine
  import Biphase = BiphaseMachine

  type ManchesterChain = Pipe<Manchester.State, Em4100.State, Identity>
  type BiphaseChain = Pipe<Biphase.State, Em4100.State, Identity>

  function HearManchester(c: ManchesterChain, es: seq<Event>): ManchesterChain {
    PipeAll(Manchester.Step, Em4100.Step, c, es)
  }

  function HearBiphase(c: BiphaseChain, es: seq<Event>): BiphaseChain {
    PipeAll(Biphase.Step, Em4100.Step, c, es)
  }

  class Notifier {
    const manchester: ManchesterDecoder
    const biphase: BiphaseDecoder

    // what the listeners look like, with the identities they have reported, kept up to date by `Notify`
    ghost var manchesterChain: ManchesterChain
    ghost var biphaseChain: BiphaseChain

    ghost function Repr(): set<object> {
      {this, manchester, manchester.listener, manchester.listener.data,
       biphase, biphase.listener, biphase.listener.data}
    }

    ghost predicate Valid()
      reads Repr()
    {
      && manchester.Valid() && biphase.Valid()
      && manchester.listener != biphase.listener && manchester.listener.data != biphase.listener.data
      && manchesterChain ==
         Pipe(manchester.State(), manchester.listener.State(), Identities(manchester.listener.tokens))
      && biphaseChain == Pipe(biphase.State(), biphase.listener.State(), Identities(biphase.listener.tokens))
    }

    constructor (manchester: ManchesterDecoder, biphase: BiphaseDecoder)
      requires manchester.Valid() && biphase.Valid()
      requires manchester.listener != biphase.listener && manchester.listener.data != biphase.listener.data
      ensures Valid() && this.manchester == manchester && this.biphase == biphase
    {
      this.manchester := manchester;
      this.biphase := biphase;
      manchesterChain := Pipe(manchester.State(), manchester.listener.State(), Identities(manchester.listener.tokens));
      biphaseChain := Pipe(biphase.State(), biphase.listener.State(), Identities(biphase.listener.tokens));
    }

    method Notify(event: Event)
      requires Valid()
      modifies Repr()
      ensures Valid()
      ensures manchesterChain == HearManchester(old(manchesterChain), [event])
      ensures biphaseChain == HearBiphase(old(biphaseChain), [event])
    {
      PipeSingle(Manchester.Step, Em4100.Step, manchesterChain, event);
      PipeSingle(Biphase.Step, Em4100.Step, biphaseChain, event);
      manchester.OnEvent(event);
      biphase.OnEvent(event);
      manchesterChain := PipeOne(Manchester.Step, Em4100.Step, manchesterChain, event);
      biphaseChain := PipeOne(Biphase.Step, Em4100.Step, biphaseChain, event);
    }
  }
}

/** The carrier decoder with the program's own counters and pulse ranges, notifying both coding decoders. */
module CarrierDecoder {
  import opened Machines
  import opened CarrierEvents
  import opened CarrierListeners
  import opened Samples
  import Em4100 = Em4100Machine
  import Manchester = ManchesterMachine
  import Biphase = BiphaseMachine
  import Machine = CarrierMachine
  import Sync = CarrierSync

  class CarrierDecoder {
    var longMin: int
    var longMax: int
    var shortMin: int
    var shortMax: int
    var pulseCount: nat
    var loCount: nat
    var hiCount: nat
    var errorCount: nat
    var carrierDivider: nat
    var hasSync: bool

    const listeners: Notifier

    ghost predicate RangesMatch()
      reads this
    {
      && shortMin == Machine.PulseLength(carrierDivider) - Machine.Delta(carrierDivider)
      && shortMax == Machine.PulseLength(carrierDivider) + Machine.Delta(carrierDivider)
      && longMin == 2 * Machine.PulseLength(carrierDivider) - Machine.Delta(carrierDivider)
      && longMax == 2 * Machine.PulseLength(carrierDivider) + Machine.Delta(carrierDivider)
    }

    ghost predicate Valid()
      reads this, listeners.Repr()
    {
      Machine.Valid(State()) && RangesMatch() && listeners.Valid()
    }

    ghost function State(): Machine.State
      reads this
    {
      Machine.State(carrierDivider, errorCount, pulseCount, loCount, hiCount, hasSync)
    }

    constructor (listeners: Notifier)
      requires listeners.Valid()
      ensures this.listeners == listeners && Valid() && State() == Machine.RESET
    {
      this.listeners := listeners;
      carrierDivider, errorCount, pulseCount := 16, 0, 0;
      hasSync := false;
      loCount, hiCount := 0, 0;
      new;
      UpdatePulseRange();
    }

    method Reset()
      modifies this
      ensures State() == Machine.RESET && RangesMatch()
    {
      carrierDivider, errorCount, pulseCount := 16, 0, 0;
      hasSync := false;
      loCount, hiCount := 0, 0;
      UpdatePulseRange();
    }

    method UpdatePulseRange()
      modifies this`shortMin, this`shortMax, this`longMin, this`longMax
      ensures RangesMatch()
    {
      var pulseLength := carrierDivider * CARRIER_US / 2;
      var delta := pulseLength / 4;
      shortMin := pulseLength - delta;
      shortMax := pulseLength + delta;
      pulseLength := pulseLength * 2;
      longMin := pulseLength - delta;
      longMax := pulseLength + delta;
    }

    /** A run of the machine. From reset the two chains hear exactly the events that the samples alone determine. */
    method CheckPulses(samples: seq<Sample>)
      requires Valid()
      modifies this, listeners.Repr()
      ensures Valid()
      ensures State() == Machine.Run(old(State()), samples).state
      ensures Heard(old(listeners.manchesterChain), old(listeners.biphaseChain), Machine.Run(old(State()), samples).out)
      ensures old(State()) == Machine.RESET ==> AsDetermined(samples)
      ensures old(State()) == Machine.RESET ==>
                Heard(old(listeners.manchesterChain), old(listeners.biphaseChain), Sync.EventsOf(samples))
    {
      ghost var start, m, b := State(), listeners.manchesterChain, listeners.biphaseChain;
      for i := 0 to |samples|
        invariant Valid()
        invariant State() == Machine.Run(start, samples[..i]).state
        invariant Heard(m, b, Machine.Run(start, samples[..i]).out)
      {
        FoldNext(Machine.Step, start, samples, i);
        HeardMore(m, b, Machine.Run(start, samples[..i]).out, Machine.Step(State(), samples[i]).out);
        OnSample(samples[i]);
      }
      assert samples[..|samples|] == samples;
      Sync.RunIs(samples);
    }

    /** Rate and sync are those of the reference. */
    ghost predicate AsDetermined(samples: seq<Sample>)
      reads this
    {
      && carrierDivider == Sync.RateAfter(samples).divider
      && (hasSync <==> Sync.Synced(carrierDivider, Sync.SinceEntry(samples)))
    }

    /** What the two chains have made of a sequence of events. */
    ghost predicate Heard(m: ManchesterChain, b: BiphaseChain, es: seq<Event>)
      reads listeners
    {
      listeners.manchesterChain == HearManchester(m, es) && listeners.biphaseChain == HearBiphase(b, es)
    }

    lemma HeardMore(m: ManchesterChain, b: BiphaseChain, es: seq<Event>, fs: seq<Event>)
      ensures HearManchester(m, es + fs) == HearManchester(HearManchester(m, es), fs)
      ensures HearBiphase(b, es + fs) == HearBiphase(HearBiphase(b, es), fs)
    {
      PipeConcat(Manchester.Step, Em4100.Step, m, es, fs);
      PipeConcat(Biphase.Step, Em4100.Step, b, es, fs);
    }

    /** The body of the loop over samples. */
    method OnSample(sample: Sample)
      requires Valid()
      modifies this, listeners.Repr()
      ensures Valid()
      ensures State() == Machine.Step(old(State()), sample).state
      ensures Heard(old(listeners.manchesterChain), old(listeners.biphaseChain), Machine.Step(old(State()), sample).out)
    {
      var nextCarrier := AdvanceWindow();
      if nextCarrier {
        NextCarrier();
      } else if !hasSync {
        CountPulse(sample);
      } else {
        ForwardPulse(sample);
      }
    }

    method AdvanceWindow() returns (nextCarrier: bool)
      requires Machine.Valid(State())
      modifies this`pulseCount, this`errorCount
      ensures nextCarrier == (old(errorCount) >= Machine.ERROR_THRESHOLD)
      ensures !nextCarrier ==> State() == Machine.Window(old(State()))
    {
      nextCarrier := false;
      pulseCount := pulseCount + 1;
      if errorCount >= Machine.ERROR_THRESHOLD {
        nextCarrier := true;
      } else if pulseCount == Machine.PULSE_MAX {
        pulseCount := 0;
        errorCount := 0;
      }
    }

    method NextCarrier()
      requires listeners.Valid()
      modifies this, listeners.Repr()
      ensures RangesMatch() && listeners.Valid()
      ensures State() == Machine.NextCarrier(old(State()))
      ensures Heard(old(listeners.manchesterChain), old(listeners.biphaseChain), [SyncChanged(false, 0)])
    {
      hasSync := false;
      loCount, hiCount, errorCount, pulseCount := 0, 0, 0, 0;
      listeners.Notify(SyncChanged(hasSync, 0));
      AdvanceDivider();
    }

    method AdvanceDivider()
      modifies this`carrierDivider, this`shortMin, this`shortMax, this`longMin, this`longMax
      ensures RangesMatch()
      ensures State() == old(State()).(divider := carrierDivider)
      ensures carrierDivider == Machine.NextCarrier(old(State())).divider
    {
      if carrierDivider == 16 { carrierDivider := 32; }
      else if carrierDivider == 32 { carrierDivider := 64; }
      else if carrierDivider == 64 { carrierDivider := 16; }
      UpdatePulseRange();
    }

    method CountPulse(sample: Sample)
      requires RangesMatch() && listeners.Valid() && !hasSync
      modifies this, listeners.Repr()
      ensures RangesMatch() && listeners.Valid()
      ensures State() == Machine.Count(old(State()), sample).state
      ensures Heard(old(listeners.manchesterChain), old(listeners.biphaseChain), Machine.Count(old(State()), sample).out)
    {
      Tally(sample);
      if hiCount > 4 && loCount > 4 && errorCount < 4 {
        hasSync := true;
        listeners.Notify(SyncChanged(hasSync, carrierDivider));
      }
    }

    method Tally(sample: Sample)
      requires RangesMatch()
      modifies this`loCount, this`hiCount, this`errorCount
      ensures RangesMatch()
      ensures State() == Machine.Tally(old(State()), sample)
    {
      if shortMin <= sample.lengthUs <= shortMax {
        loCount := (loCount + 1) % 256;
      } else if longMin <= sample.lengthUs <= longMax {
        hiCount := (hiCount + 1) % 256;
      } else {
        errorCount := errorCount + 1;
      }
    }

    method ForwardPulse(sample: Sample)
      requires RangesMatch() && listeners.Valid() && hasSync
      modifies this, listeners.Repr()
      ensures RangesMatch() && listeners.Valid()
      ensures State() == Machine.Forward(old(State()), sample).state
      ensures Heard(old(listeners.manchesterChain), old(listeners.biphaseChain), Machine.Forward(old(State()), sample).out)
    {
      if longMin <= sample.lengthUs <= longMax {
        listeners.Notify(NewPulse(sample.isHigh, true));
      } else if shortMin <= sample.lengthUs <= shortMax {
        listeners.Notify(NewPulse(sample.isHigh, false));
      } else {
        errorCount := errorCount + 1;
      }
    }
  }
}
