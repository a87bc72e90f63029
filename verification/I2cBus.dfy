/**
 The S3C2440 master driver: registers, controller and interrupt handler.

 The bus side of the controller is modelled next to the driver: writing IICSTAT and IICCON is what
 makes conditions and bytes appear on the wire. Bit 4 of IICCON is the interrupt-pending flag; the
 controller holds the bus while it is set and goes on once it is cleared.
 */
module I2cBus {
  import opened I2cSpec
  import opened I2cRuns

  const ETIMEDOUT := 110

  const LASTBIT: bv8 := 0x01
  const IRQPEND: bv8 := 0x10
  const IRQENABLE: bv8 := 0x20

  // IICSTAT: master mode and serial output, and the start or stop bit
  const ONLINE: bv8 := 0x90
  const STARTBIT: bv8 := 0x20

  /** What the controller puts on the wire when it goes on: nothing in slave mode or with the output off. */
  function GoesOut(stat: bv8, con: bv8, start: bool, held: bool, ds: nat): seq<Event> {
    if stat & ONLINE != ONLINE then []
    else if stat & STARTBIT == 0 then (if held then [Stopped] else [])
    else if start then [Started(ds, stat & 0x40 == 0)]
    else if stat & 0x40 != 0 then [Sent(ds)]
    else [Received(con & 0x80 != 0)]
  }

  /** Who owns the bus then. */
  predicate Holds(stat: bv8, held: bool) {
    if stat & ONLINE != ONLINE then held else stat & STARTBIT != 0
  }

  class Master {
    // registers
    var iiccon: bv8
    var iicstat: bv8
    var iicds: nat
    // bus side of the controller
    var startDue: bool   // a start condition is waiting to be sent
    var busy: bool    // the master owns the bus
    var wire: seq<Event>
    // struct s3c2440_i2c_xfer_data; `at` is where the moving pointer `msgs` points
    var msgs: seq<Msg>
    var at: nat
    var curMsg: nat
    var curPtr: nat
    var state: Phase
    var err: int

    ghost function Abs(): Xfer
      reads this
    {
      Xfer(msgs, curMsg, curPtr, state, err, wire)
    }

    predicate Pending()
      reads this
    {
      iiccon & IRQPEND != 0
    }

    /** IICSTAT without its status bits, while a message is transferred and after a stop in it. */
    function Mode(rd: bool): bv8 {
      if rd then 0xb0 else 0xf0
    }

    function StopMode(rd: bool): bv8 {
      if rd then 0x90 else 0xd0
    }

    ghost predicate Valid()
      reads this
    {
      && !startDue
      && Abs().Valid()
      // all of IICCON but the acknowledge and the pending bit: interrupts on, and the clock
      && iiccon & 0x6f == 0x2f
      && (Abs().Active() ==> at == curMsg && busy && iicstat & 0xfe == Mode(msgs[curMsg].rd))
      && (!Abs().Active() ==> !busy && iiccon & 0x80 != 0)
      && (state == Stop ==> at == curMsg < |msgs| && iicstat & 0xfe == StopMode(msgs[curMsg].rd))
      && (state == Idle ==> iicstat & 0xfe == 0x10)
    }

    // s3c2440_i2c_init
    constructor ()
      ensures Valid() && !Pending() && wire == [] && state == Idle
    {
      iiccon, iicstat, iicds := 0xaf, 0x10, 0;
      startDue, busy, wire := false, false, [];
      msgs, at, curMsg, curPtr, state, err := [], 0, 0, 0, Idle, 0;
    }

    // ----- The controller -----

    // the controller goes on after an interrupt
    method Resume()
      modifies `wire, `startDue, `busy
      ensures !startDue && busy == Holds(iicstat, old(busy))
      ensures wire == old(wire) + GoesOut(iicstat, iiccon, old(startDue), old(busy), iicds)
    {
      wire := wire + GoesOut(iicstat, iiccon, startDue, busy, iicds);
      busy := Holds(iicstat, busy);
      startDue := false;
    }

    method WriteStat(v: bv8)
      modifies `iicstat, `wire, `startDue, `busy
      ensures iicstat == v
      ensures v & STARTBIT == 0 || Pending() ==>
        busy == old(busy) && wire == old(wire) && startDue == (v & STARTBIT != 0)
      ensures v & STARTBIT != 0 && !Pending() ==>
        !startDue && busy == Holds(v, old(busy)) && wire == old(wire) + GoesOut(v, iiccon, true, old(busy), iicds)
    {
      iicstat := v;
      startDue := v & STARTBIT != 0;
      if startDue && !Pending() {
        Resume();
      }
    }

    method WriteCon(v: bv8)
      modifies `iiccon, `wire, `startDue, `busy
      ensures iiccon == v
      ensures !(old(Pending()) && v & IRQPEND == 0) ==>
        wire == old(wire) && startDue == old(startDue) && busy == old(busy)
      ensures old(Pending()) && v & IRQPEND == 0 ==>
        && !startDue && busy == Holds(iicstat, old(busy))
        && wire == old(wire) + GoesOut(iicstat, v, old(startDue), old(busy), iicds)
    {
      var was := Pending();
      iiccon := v;
      if was && !Pending() {
        Resume();
      }
    }

    // ----- The driver -----

    method I2cStart()
      requires !startDue && at < |msgs|
      modifies `state, `iicds, `iicstat, `wire, `startDue, `busy
      ensures state == Start && iicds == 2 * msgs[at].addr && iicstat == if msgs[at].rd then 0xb0 else 0xf0
      ensures Pending() ==> startDue && busy == old(busy) && wire == old(wire)
      ensures !Pending() ==> !startDue && busy && wire == old(wire) + [Started(iicds, msgs[at].rd)]
    {
      state := Start;
      if msgs[at].rd {
        iicds := msgs[at].addr * 2;
        WriteStat(0xb0);
      } else {
        iicds := msgs[at].addr * 2;
        WriteStat(0xf0);
      }
    }

    method I2cStop(e: int)
      requires Pending() && busy && !startDue && at < |msgs|
      modifies `state, `err, `iicstat, `iiccon, `wire, `startDue, `busy
      ensures state == Stop && err == e && !startDue && !busy
      ensures iicstat == (if msgs[at].rd then 0x90 else 0xd0) && iiccon == 0xaf
      ensures wire == old(wire) + [Stopped]
    {
      state := Stop;
      err := e;
      if msgs[at].rd {
        WriteStat(0x90);
        WriteCon(0xaf);
      } else {
        WriteStat(0xd0);
        WriteCon(0xaf);
      }
    }

    predicate IsLastMsg()
      reads this
    {
      curMsg == |msgs| - 1
    }

    predicate IsEndData()
      requires at < |msgs|
      reads this
    {
      curPtr >= |msgs[at].buf|
    }

    predicate IsLastData()
      requires at < |msgs|
      reads this
    {
      curPtr == |msgs[at].buf| - 1
    }

    // msgs++, cur_msg++, and the start condition for the next message
    method NextMsg()
      requires Pending() && !startDue && busy && at == curMsg < |msgs| - 1
      modifies `at, `curMsg, `curPtr, `state, `iicds, `iicstat, `wire, `startDue, `busy
      ensures at == curMsg == old(curMsg) + 1 && curPtr == 0 && state == Start
      ensures iicds == 2 * msgs[at].addr && iicstat == Mode(msgs[at].rd) && startDue && busy && wire == old(wire)
    {
      at := at + 1;
      curMsg := curMsg + 1;
      curPtr := 0;
      state := Start;
      I2cStart();
    }

    /** What the registers mean before the pending flag is finally cleared. */
    ghost predicate Handled(x: Xfer)
      requires x.Valid()
      reads this
    {
      && msgs == x.msgs && curMsg == x.cur && curPtr == x.ptr && state == x.phase && err == x.err
      && iiccon & 0x6f == 0x2f && x.phase != Idle
      && (x.Active() ==> at == curMsg && busy && iicstat & 0xfe == Mode(msgs[curMsg].rd))
      && (!x.Active() ==> !busy && iiccon & 0x80 != 0)
      && (x.phase == Stop ==> at == curMsg < |msgs| && iicstat & 0xfe == StopMode(msgs[curMsg].rd))
      && if Pending() && startDue then x.Active() && wire + [Started(iicds, iicstat & 0x40 == 0)] == x.wire
         else !Pending() && !startDue && wire == x.wire
    }

    // case STATE_WRITE
    method WriteCase(iicSt: bv8)
      requires Pending() && iiccon & 0x6f == 0x2f && !startDue && busy
      requires at == curMsg < |msgs| && state == Write
      requires curPtr <= |msgs[at].buf| && !msgs[at].rd && iicstat & 0xfe == Mode(false)
      modifies this
      ensures Handled(if iicSt & LASTBIT != 0 then old(Abs()).Finish(-ENODEV) else old(Abs()).Advance())
    {
      if iicSt & LASTBIT != 0 {
        I2cStop(-ENODEV);
      } else if !IsEndData() {
        iicds := msgs[at].buf[curPtr];
        curPtr := curPtr + 1;
        WriteCon(0xaf);
      } else if !IsLastMsg() {
        NextMsg();
      } else {
        I2cStop(0);
      }
    }

    // label next_read
    method NextRead()
      requires Pending() && iiccon & 0x6f == 0x2f && !startDue && busy
      requires at == curMsg < |msgs| && state == Read
      requires curPtr <= |msgs[at].buf| && msgs[at].rd && iicstat & 0xfe == Mode(true)
      modifies this
      ensures Handled(old(Abs()).Advance())
    {
      if !IsEndData() {
        if IsLastData() {
          WriteCon(0x2f);
        } else {
          WriteCon(0xaf);
        }
      } else if !IsLastMsg() {
        NextMsg();
      } else {
        I2cStop(0);
      }
    }

    // case STATE_START
    method StartCase(iicSt: bv8)
      requires Pending() && iiccon & 0x6f == 0x2f && !startDue && busy
      requires at == curMsg < |msgs| && state == Start
      requires curPtr == 0 && iicstat & 0xfe == Mode(msgs[at].rd)
      modifies this
      ensures Handled(if iicSt & LASTBIT != 0 then old(Abs()).Finish(-ENODEV) else old(Abs()).Advance())
    {
      if iicSt & LASTBIT != 0 {
        I2cStop(-ENODEV);
      } else if IsLastMsg() && IsEndData() {
        I2cStop(0);
      } else if msgs[at].rd {
        state := Read;
        NextRead();
      } else {
        state := Write;
        WriteCase(iicSt);
      }
    }

    // s3c2440_i2c_xfer_irq
    method XferIrq()
      requires Valid() && Pending()
      modifies this
      ensures Valid() && !Pending()
      ensures Abs() == old(Abs()).Step(Irq(old(iicstat) & LASTBIT != 0, old(iicds) % 256))
    {
      var iicSt := iicstat;
      match state {
        case Start =>
          StartCase(iicSt);
        case Write =>
          WriteCase(iicSt);
        case Read =>
          ghost var stored := Abs().Store(iicds % 256);
          msgs := msgs[at := msgs[at].(buf := msgs[at].buf[curPtr := iicds % 256])];
          curPtr := curPtr + 1;
          assert Abs() == stored;
          NextRead();
        case _ =>
      }
      ClearPending(old(Abs()).Step(Irq(old(iicstat) & LASTBIT != 0, old(iicds) % 256)));
    }

    // the last statement of the handler
    method ClearPending(ghost x: Xfer)
      requires x.Valid() && (Handled(x) || (Valid() && Abs() == x && !x.Active()))
      modifies `iiccon, `wire, `startDue, `busy
      ensures Valid() && !Pending() && Abs() == x
    {
      assert iiccon & !IRQPEND & IRQPEND == 0;
      WriteCon(iiccon & !IRQPEND);
    }

    // the controller raises an interrupt: status and, when receiving, data are latched
    method Interrupt(irq: Irq)
      requires Valid()
      modifies this
      ensures Valid() && !Pending()
      ensures Abs() == old(Abs()).Step(irq)
    {
      assert iiccon & 0x6f == 0x2f ==> iiccon & IRQENABLE != 0;
      if iiccon & IRQENABLE != 0 {
        Latch(irq);
        XferIrq();
      }
    }

    method Latch(irq: Irq)
      requires Valid()
      modifies `iiccon, `iicstat, `iicds
      ensures Valid() && Pending() && (iicstat & LASTBIT != 0 <==> irq.nack)
      ensures state == Read ==> iicds == irq.data
    {
      iiccon := iiccon | IRQPEND;
      iicstat := (iicstat & 0xfe) | (if irq.nack then 0x01 else 0x00);
      if iicstat & 0x40 == 0 {
        iicds := irq.data;
      }
    }

    // s3c2440_i2c_xfer: `irqs` are the interrupts that arrive before the time-out
    method Transfer(messages: seq<Msg>, irqs: seq<Irq>) returns (ret: int)
      requires Valid() && !Pending() && messages != []
      modifies this
      ensures Valid()
      ensures Abs() == Run(Begin(messages, old(wire)), irqs)
      // a stopped transfer leaves the controller a master with its output on, in the direction of the last message
      ensures state == Stop ==> curMsg < |msgs| && iicstat & 0xfe == if msgs[curMsg].rd then 0x90 else 0xd0
      ensures ret == if !NoneRefused(messages, irqs, |irqs|) then -ENODEV
                     else if |irqs| >= Cost(messages) then 0
                     else -ETIMEDOUT
    {
      msgs, at, curMsg, curPtr, err := messages, 0, 0, 0, -ENODEV;
      I2cStart();
      for i := 0 to |irqs|
        invariant Valid() && !Pending()
        invariant Abs() == Run(Begin(messages, old(wire)), irqs[..i])
      {
        assert irqs[..i + 1][..i] == irqs[..i];
        Interrupt(irqs[i]);
      }
      assert irqs[..|irqs|] == irqs;
      Outcome(messages, old(wire), irqs);
      ret := if state == Stop then err else -ETIMEDOUT;
    }
  }
}
