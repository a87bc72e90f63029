/**
 What an I2C transfer is: the state of the master between two interrupts, one interrupt, and the
 complete exchange a list of messages stands for.
 */
module I2cSpec {
  import opened Basics

  const ENODEV := 19

  /** One message: a write sends `buf`, a read fills it. */
  datatype Msg = Msg(addr: nat, rd: bool, buf: seq<byte>)

  /** What can be seen on the bus. */
  datatype Event =
    | Started(address: nat, rd: bool)
    | Sent(data: nat)
    | Received(ack: bool)
    | Stopped

  datatype Phase = Idle | Start | Read | Write | Stop

  /** What the controller reports at an interrupt: a missing acknowledge, and the data register. */
  datatype Irq = Irq(nack: bool, data: byte)

  datatype Xfer = Xfer(msgs: seq<Msg>, cur: nat, ptr: nat, phase: Phase, err: int, wire: seq<Event>) {

    predicate Active() { phase == Start || phase == Read || phase == Write }

    /** The message index, the byte index and the direction fit together. */
    predicate Valid() {
      Active() ==>
        && cur < |msgs|
        && ptr <= |msgs[cur].buf|
        && (phase == Start ==> ptr == 0)
        && (phase == Read ==> msgs[cur].rd && ptr < |msgs[cur].buf|)
        && (phase == Write ==> !msgs[cur].rd && 0 < ptr)
    }

    /** Stop condition, and the transfer is over. */
    function Finish(e: int): Xfer {
      this.(phase := Stop, err := e, wire := wire + [Stopped])
    }

    /** (Repeated) start condition and address byte of the current message. */
    function Address(): Xfer
      requires cur < |msgs|
    {
      this.(phase := Start, wire := wire + [Started(2 * msgs[cur].addr, msgs[cur].rd)])
    }

    /** The next byte of the current message, else the next message, else the end. */
    function Advance(): Xfer
      requires cur < |msgs| && ptr <= |msgs[cur].buf|
    {
      var m := msgs[cur];
      if ptr < |m.buf| then
        if m.rd then this.(phase := Read, wire := wire + [Received(ptr < |m.buf| - 1)])
        else this.(phase := Write, ptr := ptr + 1, wire := wire + [Sent(m.buf[ptr])])
      else if cur < |msgs| - 1 then this.(cur := cur + 1, ptr := 0).Address()
      else Finish(0)
    }

    /** The current message with the received byte stored. */
    function Store(data: byte): Xfer
      requires cur < |msgs| && ptr < |msgs[cur].buf|
    {
      var m := msgs[cur];
      this.(msgs := msgs[cur := m.(buf := m.buf[ptr := data])], ptr := ptr + 1)
    }

    /** One interrupt. */
    function Step(irq: Irq): Xfer
      requires Valid()
    {
      match phase
      case Start => if irq.nack then Finish(-ENODEV) else Advance()
      case Write => if irq.nack then Finish(-ENODEV) else Advance()
      case Read => Store(irq.data).Advance()
      case _ => this
    }
  }

  /** The state right after a transfer of `msgs` has been started. */
  function Begin(msgs: seq<Msg>, wire: seq<Event>): (x: Xfer)
    requires msgs != []
    ensures x.Valid()
  {
    Xfer(msgs, 0, 0, Start, -ENODEV, wire).Address()
  }

  lemma StepKeepsValid(x: Xfer, irq: Irq)
    requires x.Valid()
    ensures x.Step(irq).Valid()
  {
  }

  /** All interrupts of a run, in order. */
  function Run(x: Xfer, irqs: seq<Irq>): (y: Xfer)
    requires x.Valid()
    ensures y.Valid()
  {
    if irqs == [] then x
    else Run(x, irqs[..|irqs| - 1]).Step(irqs[|irqs| - 1])
  }
}
