/** The Manchester decoder with the program's own two flags, notifying an EM4100 decoder. */
module ManchesterDecoder {
  import opened Machines
  import opened CarrierEvents
  import opened Em4100Decoder
  import Em4100 = Em4100Machine
  import Machine = ManchesterMachine

  class ManchesterDecoder {
    var ffOut: bool
    var timerRunning: bool
    const listener: Em4100Decoder

    ghost predicate Valid()
      reads this, listener, listener.data
    {
      listener.Valid()
    }

    ghost function State(): Machine.State
      reads this
    {
      Machine.State(ffOut, timerRunning)
    }

    constructor (listener: Em4100Decoder)
      requires listener.Valid()
      ensures Valid() && this.listener == listener
      ensures State() == Machine.RESET
    {
      this.listener := listener;
      ffOut := false;
      timerRunning := false;
    }

    method Reset()
      modifies this
      ensures State() == Machine.RESET
    {
      ffOut := false;
      timerRunning := false;
    }

    /** Every bit read is passed on to the listener at once. */
    method OnEvent(event: Event)
      requires Valid()
      modifies this, listener, listener.data
      ensures Valid()
      ensures State() == Machine.Step(old(State()), event).state
      ensures var seen := Em4100.Run(old(listener.State()), Machine.Step(old(State()), event).out);
              listener.State() == seen.state &&
              Identities(listener.tokens) == Identities(old(listener.tokens)) + seen.out
    {
      ghost var em := listener.State();
      forall bit ensures Em4100.Run(em, [bit]) == Em4100.Step(em, bit) { FoldOne(Em4100.Step, em, bit); }
      match event
      case SyncChanged(_, _) =>
        Reset();
      case NewPulse(isHigh, isLong) =>
        if timerRunning {
          ffOut := isHigh;
          timerRunning := isLong;
          listener.OnBit(ffOut);
          if timerRunning {
            timerRunning := ffOut != isHigh;
          }
        } else {
          var timerTrigger := isHigh != ffOut;
          if timerTrigger {
            if isLong {
              timerRunning := false;
              ffOut := isHigh;
              listener.OnBit(ffOut);
            } else {
              timerRunning := true;
            }
          }
        }
    }
  }
}
