/** src/gpib/gpib488.c over the chip driver: addressed writes and reads, addressed commands and
    the serial poll, each from any addressing state the bus may be in. */
module Gpib488 {
  import opened Words
  import opened TntRegs
  import opened ChipModel
  import opened Tnt4882
  import opened TransferOut
  import opened TransferIn
  import opened Control
  import opened Addressing

  /** An initialised chip with the address that tnt_init or tnt_set_address gave it. */
  ghost predicate Ready(c: TntChip)
    reads c, c.io
  {
    c.Valid() && c.io.core.adr0 == c.pad && ValidPad(c.pad) && c.sad <= 30
  }

  predicate ValidAddress(pad: int, sad: int) {
    0 <= pad <= 30 && -1 <= sad <= 30
  }

  /** We are in charge, the engine goes as far as it can, and the instrument is at the address. */
  ghost predicate Reaches(c: TntChip, pad: int, sad: int)
    reads c, c.io
  {
    && c.io.eager && ValidAddress(pad, sad) && c.io.core.lines.cic
    && c.io.dev.present && (c.io.dev.pad as int) == pad
  }

  lemma PadByte(pad: int)
    requires 0 <= pad <= 30
    ensures ValidPad(Byte(pad))
  {
    assert (Byte(pad) as int) == pad;
  }

  /** Commands leave both data streams of the instrument alone. */
  predicate SameStreams(d': Device, d: Device) {
    d' == d.(commands := d'.commands, mode := d'.mode)
  }

  lemma {:induction false} HeardModes(cfg: bv8, d: Device, c: Core, buf: seq<bv8>, k: nat)
    requires k <= |buf| && Has(cfg, CFG_COMMAND)
    ensures Heard(cfg, d, buf, k) == d.(commands := d.commands + buf[..k], mode := ReactAll(d.mode, d.pad, buf[..k]))
    ensures Overheard(cfg, c, buf, k) == c.(role := TakeRoles(c.role, Addr(c.adr0), buf[..k]))
  {
    hide React, TakeRole, Has, Addr;
    if k == 0 {
      assert buf[..0] == [] && d.commands + [] == d.commands;
    } else {
      HeardModes(cfg, d, c, buf, k - 1);
      var last := [buf[k - 1]];
      assert buf[..k] == buf[..k - 1] + last;
      assert d.commands + buf[..k - 1] + last == d.commands + buf[..k];
      ReactConcat(d.mode, d.pad, buf[..k - 1], last);
      RolesConcat(c.role, Addr(c.adr0), buf[..k - 1], last);
      var m, r := ReactAll(d.mode, d.pad, buf[..k - 1]), TakeRoles(c.role, Addr(c.adr0), buf[..k - 1]);
      assert ReactAll(m, d.pad, last) == React(m, d.pad, buf[k - 1]);
      assert TakeRoles(r, Addr(c.adr0), last) == TakeRole(r, Addr(c.adr0), buf[k - 1]);
    }
  }

  /** gpib_send_commands: on success every byte was taken and acted on by the instrument and by
      us, under ATN; in any case the data streams are as they were. */
  method GpibSendCommands(c: TntChip, cmd: seq<bv8>) returns (rc: Status, ghost sent: nat)
    requires Ready(c) && Limited(c, true)
    modifies c`isr1, c`isr2, c.io
    ensures Ready(c) && SameStreams(c.io.dev, old(c.io.dev))
    ensures c.io.core.aux == old(c.io.core.aux) && c.io.core.eosr == old(c.io.core.eosr)
    ensures !old(c.io.core.lines.cic) ==> rc == ENOTCIC && c.Now() == old(c.Now())
    ensures old(c.io.core.lines.cic) ==> rc != ENOTCIC && c.io.core.lines == old(c.io.core.lines).(atn := true)
    ensures sent <= |cmd|
    ensures c.io.dev.commands == old(c.io.dev.commands) + cmd[..sent]
    ensures c.io.dev.mode == ReactAll(old(c.io.dev.mode), c.io.dev.pad, cmd[..sent])
    ensures c.io.core.role == TakeRoles(old(c.io.core.role), c.pad, cmd[..sent])
    ensures rc == OK ==> cmd[..sent] == cmd && (cmd != [] ==> c.io.dev.present)
    ensures c.io.eager && old(c.io.core.lines.cic) && 0 < |cmd| <= MAX_TRANSFER ==>
              rc == if c.io.dev.present then OK else ENOLISTENER
    ensures c.io.timeUs >= old(c.io.timeUs)
  {
    hide Heard, Overheard, Has, TakeRoles, ReactAll, Addr, Tad, Lad, IsTad, IsLad, React, TakeRole, Config;
    var count;
    rc, count := TntCommand(c, cmd);
    sent := count;
    if rc == OK && count != |cmd| {
      rc := EIO;
    }
    NothingSent(old(c.io.dev), old(c.io.core), c.pad, cmd);
    if old(c.io.core.lines.cic) {
      ConfigBits(false, true);
      HeardModes(Config(false, true), old(c.io.dev), old(c.io.core), cmd, sent);
      PadEncodes(c.pad);
      assert cmd[..|cmd|] == cmd;
      PadDecodes(c.pad);
    }
  }

  lemma NothingSent(d: Device, c: Core, mypad: bv8, cmd: seq<bv8>)
    ensures d.commands == d.commands + cmd[..0]
    ensures d.mode == ReactAll(d.mode, d.pad, cmd[..0]) && c.role == TakeRoles(c.role, mypad, cmd[..0])
  {
  }

  lemma PadDecodes(pad: bv8)
    requires ValidPad(pad)
    ensures Addr(pad) == pad
  {
  }

  /** gpib_build_address */
  method GpibBuildAddress(c: TntChip, pad: int, sad: int, deviceTalks: bool) returns (out: seq<bv8>)
    requires pad >= 0
    ensures out == AddressPrefix(c.pad, c.sad, Byte(pad), sad, deviceTalks)
    ensures pad <= 30 && sad <= 30 && c.pad <= 30 && c.sad <= 30 ==>
              out == [0x3F, (if deviceTalks then 0x40 else 0x20) + Byte(pad)]
                     + (if sad < 0 then [] else [0x60 + Byte(sad)])
                     + [(if deviceTalks then 0x20 else 0x40) + c.pad]
                     + (if c.sad < 0 then [] else [0x60 + Byte(c.sad)])
  {
    hide *;
    PrefixIs(c.pad, c.sad, Byte(pad), sad, deviceTalks);
    PrefixBytesAt(c.pad, c.sad, pad, sad, deviceTalks);
    var p := Byte(pad);
    out := [UNL];
    out := out + [if deviceTalks then Tad(p) else Lad(p)];
    if sad >= 0 {
      out := out + [Sad(Byte(sad))];
    }
    out := out + [if deviceTalks then Lad(c.pad) else Tad(c.pad)];
    if c.sad >= 0 {
      out := out + [Sad(Byte(c.sad))];
    }
  }

  lemma PrefixIs(mypad: bv8, mysad: int, pad: bv8, sad: int, deviceTalks: bool)
    ensures var head := [UNL] + [if deviceTalks then Tad(pad) else Lad(pad)];
            var most := (if sad >= 0 then head + [Sad(Byte(sad))] else head)
                        + [if deviceTalks then Lad(mypad) else Tad(mypad)];
            AddressPrefix(mypad, mysad, pad, sad, deviceTalks)
            == if mysad >= 0 then most + [Sad(Byte(mysad))] else most
  {
    hide Lad, Tad, Sad, Byte;
  }

  lemma PrefixBytesAt(mypad: bv8, mysad: int, pad: nat, sad: int, deviceTalks: bool)
    ensures pad <= 30 && sad <= 30 && mypad <= 30 && mysad <= 30 ==>
              AddressPrefix(mypad, mysad, Byte(pad), sad, deviceTalks)
              == [0x3F, (if deviceTalks then 0x40 else 0x20) + Byte(pad)]
                 + (if sad < 0 then [] else [0x60 + Byte(sad)])
                 + [(if deviceTalks then 0x20 else 0x40) + mypad]
                 + (if mysad < 0 then [] else [0x60 + Byte(mysad)])
  {
    hide AddressPrefix, Byte;
    if pad <= 30 && sad <= 30 && mypad <= 30 && mysad <= 30 {
      PadByte(pad);
      PrefixBytes(mypad, mysad, Byte(pad), sad, deviceTalks);
    }
  }

  lemma PrefixLength(mypad: bv8, mysad: int, pad: bv8, sad: int, deviceTalks: bool)
    ensures 0 < |AddressPrefix(mypad, mysad, pad, sad, deviceTalks)| <= MAX_TRANSFER
  {
    hide Lad, Tad, Sad;
  }

  /** The bytes that address a device to talk or to listen have come down the bus. */
  predicate Prefixed(was: seq<bv8>, commands: seq<bv8>, mypad: bv8, mysad: int, pad: int, sad: int, deviceTalks: bool) {
    && 0 <= pad <= 30 && -1 <= sad <= 30
    && commands == was + ([0x3F, (if deviceTalks then 0x40 else 0x20) + Byte(pad)]
                          + (if sad < 0 then [] else [0x60 + Byte(sad)])
                          + [(if deviceTalks then 0x20 else 0x40) + mypad]
                          + (if mysad < 0 then [] else [0x60 + Byte(mysad)]))
  }

  lemma PrefixIsThat(was: seq<bv8>, mypad: bv8, mysad: int, pad: int, sad: int, deviceTalks: bool)
    requires ValidAddress(pad, sad) && ValidPad(mypad) && mysad <= 30
    ensures Prefixed(was, was + AddressPrefix(mypad, mysad, Byte(pad), sad, deviceTalks),
                     mypad, mysad, pad, sad, deviceTalks)
  {
    hide AddressPrefix, Byte;
    PrefixBytesAt(mypad, mysad, pad, sad, deviceTalks);
  }

  /** address_device */
  method AddressDevice(c: TntChip, pad: int, sad: int, deviceTalks: bool) returns (rc: Status)
    requires Ready(c) && Limited(c, true)
    modifies c`isr1, c`isr2, c.io
    ensures Ready(c) && SameStreams(c.io.dev, old(c.io.dev))
    ensures c.io.core.aux == old(c.io.core.aux) && c.io.core.eosr == old(c.io.core.eosr)
    ensures c.io.dev.mode.spe == old(c.io.dev.mode.spe)
    ensures !ValidAddress(pad, sad) ==> rc == EINVAL && c.Now() == old(c.Now())
    ensures var l := old(c.io.core.lines);
            c.io.core.lines == if ValidAddress(pad, sad) && l.cic then l.(atn := true) else l
    ensures c.io.eager && ValidAddress(pad, sad) && old(c.io.core.lines.cic) && c.io.dev.present ==> rc == OK
    ensures rc == OK ==>
              && ValidAddress(pad, sad) && c.io.core.lines.cic && c.io.dev.present
              && (var self := pad == (c.pad as int); c.io.core.role == Role(!deviceTalks || self, deviceTalks || self))
              && c.io.dev.mode.talking == ((c.io.dev.pad as int) == if deviceTalks then pad else (c.pad as int))
              && c.io.dev.mode.listening == ((c.io.dev.pad as int) == if deviceTalks then (c.pad as int) else pad)
              && (var was := old(c.io.dev.mode);
                  c.io.dev.mode.speSent == (was.speSent && !(was.spe && c.io.dev.mode.talking)))
              && Prefixed(old(c.io.dev.commands), c.io.dev.commands, c.pad, c.sad, pad, sad, deviceTalks)
    ensures c.io.timeUs >= old(c.io.timeUs)
  {
    hide Has, TakeRoles, ReactAll, AddressPrefix, Prefixed;
    if !ValidAddress(pad, sad) {
      return EINVAL;
    }
    PadByte(pad);
    var cmd := GpibBuildAddress(c, pad, sad, deviceTalks);
    PrefixLength(c.pad, c.sad, Byte(pad), sad, deviceTalks);
    PrefixNoPoll(c.pad, c.sad, Byte(pad), sad, deviceTalks);
    PrefixIsThat(c.io.dev.commands, c.pad, c.sad, pad, sad, deviceTalks);
    PrefixOnDevice(c.io.dev.mode, c.io.dev.pad, c.pad, c.sad, Byte(pad), sad, deviceTalks);
    PrefixOnUs(c.io.core.role, c.pad, c.sad, Byte(pad), sad, deviceTalks);
    ghost var sent;
    rc, sent := GpibSendCommands(c, cmd);
    PollModeKept(old(c.io.dev.mode), c.io.dev.pad, cmd[..sent]);
    SameByte(c.io.dev.pad, pad);
    SameByte(c.pad, pad);
    BytesDiffer(c.io.dev.pad, c.pad);
  }

  lemma SameByte(b: bv8, x: int)
    requires 0 <= x < 0x100
    ensures b == Byte(x) <==> (b as int) == x
  {
    hide Byte, ByteOf;
    assert x % 0x100 == x;
    BytesDiffer(b, Byte(x));
  }

  lemma BytesDiffer(a: bv8, b: bv8)
    ensures a == b <==> (a as int) == (b as int)
  {
  }

  // ---- Addressed commands -------------------------------------------------------------

  /** What clear, trigger or go-to-local does to an instrument that it reaches or not. */
  function Obeyed(m: Mode, hit: bool, command: bv8): Mode {
    m.(listening := hit,
       cleared := m.cleared + (if hit && command == SDC then 1 else 0),
       triggered := m.triggered + (if hit && command == GET then 1 else 0),
       local := m.local || (hit && command == GTL))
  }

  /** addressed_command: success means that the instrument obeyed if it is the one at the address,
      and otherwise only lost its listen address. */
  method GpibAddressedCommand(c: TntChip, pad: int, sad: int, command: bv8) returns (rc: Status)
    requires Ready(c) && Limited(c, true)
    requires command == SDC || command == GET || command == GTL
    modifies c`isr1, c`isr2, c.io
    ensures Ready(c) && SameStreams(c.io.dev, old(c.io.dev))
    ensures rc == OK ==>
              && ValidAddress(pad, sad) && c.io.core.lines.atn
              && c.io.dev.mode == Obeyed(old(c.io.dev.mode), (c.io.dev.pad as int) == pad, command)
              && c.io.dev.commands == old(c.io.dev.commands)
                 + ([0x3F, 0x20 + Byte(pad)] + (if sad < 0 then [] else [0x60 + Byte(sad)]) + [command])
    ensures !ValidAddress(pad, sad) ==> rc == EINVAL && c.Now() == old(c.Now())
  {
    hide Has, TakeRoles, ReactAll, AddressedCommand;
    if !ValidAddress(pad, sad) {
      return EINVAL;
    }
    PadByte(pad);
    SameByte(c.io.dev.pad, pad);
    CommandReachesOne(c.io.dev.mode, c.io.dev.pad, Byte(pad), sad, command);
    CommandBytesAre(Byte(pad), sad, command);
    var cmd := BuildCommand(Byte(pad), sad, command);
    ghost var sent;
    rc, sent := GpibSendCommands(c, cmd);
  }

  method BuildCommand(p: bv8, sad: int, command: bv8) returns (cmd: seq<bv8>)
    ensures cmd == AddressedCommand(p, sad, command)
  {
    cmd := [UNL];
    cmd := cmd + [Lad(p)];
    if sad >= 0 {
      cmd := cmd + [Sad(Byte(sad))];
    }
    cmd := cmd + [command];
  }

  /** gpib_clear: one instrument, or with a negative address every one. */
  method GpibClear(c: TntChip, pad: int, sad: int) returns (rc: Status)
    requires Ready(c) && Limited(c, true)
    modifies c`isr1, c`isr2, c.io
    ensures Ready(c) && SameStreams(c.io.dev, old(c.io.dev))
    ensures rc == OK ==>
              && c.io.core.lines.atn
              && c.io.dev.mode.cleared
              == old(c.io.dev.mode.cleared) + (if pad < 0 || (c.io.dev.pad as int) == pad then 1 else 0)
              && c.io.dev.commands == old(c.io.dev.commands)
                 + (if pad < 0 then [0x14]
                    else [0x3F, 0x20 + Byte(pad)] + (if sad < 0 then [] else [0x60 + Byte(sad)]) + [0x04])
    ensures pad >= 0 && !ValidAddress(pad, sad) ==> rc == EINVAL && c.Now() == old(c.Now())
  {
    hide Has, TakeRoles, ReactAll;
    if pad < 0 {
      EveryoneClears(c.io.dev.mode, c.io.dev.pad);
      ghost var sent;
      rc, sent := GpibSendCommands(c, [DCL]);
    } else {
      rc := GpibAddressedCommand(c, pad, sad, SDC);
    }
  }

  lemma EveryoneClears(m: Mode, pad: bv8)
    ensures ReactAll(m, pad, [DCL]).cleared == m.cleared + 1
  {
    assert ReactAll(m, pad, [DCL]) == React(m, pad, DCL);
  }

  /** gpib_write. Success means that the instrument at the address got the whole buffer, with EOI
      on its last byte if asked for; in any case `sent` counts exactly what it got, and a
      controller in charge asserts ATN again. */
  method GpibWrite(c: TntChip, pad: int, sad: int, buf: seq<bv8>, eoi: bool) returns (rc: Status, sent: nat)
    requires Ready(c) && Limited(c, true)
    modifies c`isr1, c`isr2, c.io
    ensures Ready(c)
    ensures sent <= |buf|
    ensures c.io.dev.rx == old(c.io.dev.rx) + Logged(buf, sent, eoi)
    ensures c.io.dev.tx == old(c.io.dev.tx) && c.io.dev.txPos == old(c.io.dev.txPos)
    ensures sent > 0 ==> (c.io.dev.pad as int) == pad
    ensures rc == OK ==> Prefixed(old(c.io.dev.commands), c.io.dev.commands, c.pad, c.sad, pad, sad, false)
    ensures rc == OK ==> sent == |buf|
    ensures ValidAddress(pad, sad) && old(c.io.core.lines.cic) ==> c.io.core.lines.atn
    ensures !ValidAddress(pad, sad) ==> rc == EINVAL && c.Now() == old(c.Now())
    ensures old(Reaches(c, pad, sad)) && |buf| <= MAX_TRANSFER ==> rc == OK
  {
    hide Has, Logged, Byte, Prefixed;
    rc := AddressDevice(c, pad, sad, false);
    sent := 0;
    assert c.io.dev.rx == old(c.io.dev.rx) + Logged(buf, 0, eoi) by { NothingLogged(c.io.dev.rx, buf, eoi); }
    if rc != OK {
      return;
    }
    rc := TntGoToStandby(c);
    if rc != OK {
      return;
    }
    rc, sent := TntWrite(c, buf, eoi);
    var rc2 := TntTakeControl(c, false);
    if rc2 != OK && rc == OK {
      rc := EIO;
    }
  }

  lemma NothingLogged(rx: seq<Item>, buf: seq<bv8>, eoi: bool)
    ensures rx == rx + Logged(buf, 0, eoi)
  {
    assert Logged(buf, 0, eoi) == [];
  }

  /** The data that the instrument has still to send. */
  function Stream(d: Device): seq<Item> {
    if d.txPos <= |d.tx| then d.tx[d.txPos..] else []
  }

  /** What a read gets from the instrument once it is addressed: its status byte in serial-poll
      mode, and its stream otherwise. */
  function Offered(d: Device): seq<Item> {
    if d.mode.spe then [Item(d.stb, false)] else Stream(d)
  }

  /** Taking n bytes drops them from the stream, and in serial-poll mode leaves it alone. */
  lemma OfferedTaken(d0: Device, d: Device, n: nat)
    requires SameStreams(d, d0) && d.mode.spe == d0.mode.spe
    requires d.mode.talking ==> !(d.mode.spe && d.mode.speSent)
    requires n <= |Offer(d)|
    ensures d.mode.talking ==> Offer(d) == Offered(d0)
    ensures n <= |Offered(d0)|
    ensures Stream(Taken(d, n)) == if d.mode.spe then Stream(d0) else Stream(d0)[n..]
    ensures var d' := Taken(d, n);
            && d'.mode.spe == d.mode.spe && d'.pad == d.pad && d'.rx == d.rx && d'.stb == d.stb
            && d'.present == d.present && d'.commands == d.commands
  {
    TakenOffer(d, n);
  }

  /** gpib_read. The instrument at the address gives up the next stretch of what it has to say: up
      to and including the first byte that ends a message, or the whole buffer. Nothing is lost
      or read twice unless the call times out, and then `lost` counts what the talker sent and
      the caller never gets. */
  method GpibRead(c: TntChip, pad: int, sad: int, buf: array<bv8>, cap: nat)
    returns (rc: Status, got: nat, end: bool, ghost lost: nat)
    requires Ready(c) && cap <= buf.Length
    requires Limited(c, (c.io.dev.pad as int) == pad && Enough(c.io.core, Offered(c.io.dev), cap))
    modifies c`auxra, c`isr1, c`isr2, c.io, buf
    ensures Ready(c) && SameEnding(old(c.io.core), c.io.core)
    ensures var d, d' := old(c.io.dev), c.io.dev;
            d'.mode.spe == d.mode.spe && d'.pad == d.pad && d'.rx == d.rx && d'.stb == d.stb && d'.present == d.present
    ensures got <= cap && got + lost <= |Offered(old(c.io.dev))|
    ensures buf[..got] == BytesOf(Offered(old(c.io.dev))[..got])
    ensures var d := old(c.io.dev); Stream(c.io.dev) == if d.mode.spe then Stream(d) else Stream(d)[got + lost..]
    ensures forall i :: 0 <= i && i + 1 < got ==> !Ends(old(c.io.core), Offered(old(c.io.dev))[i])
    ensures got > 0 ==> (c.io.dev.pad as int) == pad
    ensures rc == OK ==> Prefixed(old(c.io.dev.commands), c.io.dev.commands, c.pad, c.sad, pad, sad, true)
    ensures rc == OK ==> lost == 0
    ensures rc == OK && cap > 0 ==>
              && got > 0 && (got == cap || end)
              && end == Ends(old(c.io.core), Offered(old(c.io.dev))[got - 1])
    ensures rc != ETIMEOUT || c.io.eager ==> lost == 0
    ensures c.io.core.lines.cic == old(c.io.core.lines.cic)
    ensures ValidAddress(pad, sad) && old(c.io.core.lines.cic) ==> c.io.core.lines.atn
    ensures !ValidAddress(pad, sad) ==> rc == EINVAL && c.Now() == old(c.Now())
    ensures old(Reaches(c, pad, sad) && Enough(c.io.core, Offered(c.io.dev), cap)) && cap <= MAX_TRANSFER ==> rc == OK
  {
    hide Has, Ends, Offer, Taken, Stream, Offered, Enough, SameEnding, BytesOf, Prefixed;
    ghost var core0, dev0 := c.io.core, c.io.dev;
    got, end, lost := 0, false, 0;
    NothingOffered(dev0, buf[..0]);
    rc := AddressDevice(c, pad, sad, true);
    SameStream(c.io.dev, dev0);
    if rc != OK {
      SameByAux(core0, c.io.core);
      return;
    }
    ghost var core1, dev1 := c.io.core, c.io.dev;
    OfferedTaken(dev0, dev1, 0);
    ToAnswer(core0, core1, Offered(dev0), dev1, cap);
    rc, got, end, lost := ReadAddressed(c, buf, cap);
    OfferedTaken(dev0, dev1, got + lost);
    SilentGivesNothing(dev1, got, buf[..got], Offered(dev0));
    SameByAux(core0, core1);
    ChainEnding(core0, core1, c.io.core);
    SameEndsAll(core0, core1);
  }

  /** The lines as they are with ATN released. */
  function Released(core: Core): Core {
    core.(lines := core.lines.(atn := false))
  }

  lemma ToAnswer(core: Core, core': Core, offered: seq<Item>, d: Device, cap: nat)
    requires core'.aux == core.aux && core'.eosr == core.eosr && core'.role.listener && d.present
    ensures d.mode.talking && Offer(d) == offered && Enough(core, offered, cap) ==> Answers(Released(core'), d, cap)
  {
    hide Ends, Offer;
    SameByAux(core, Released(core'));
    SameEndsAll(core, Released(core'));
  }

  lemma SameByAux(c: Core, c': Core)
    ensures c'.aux == c.aux && c'.eosr == c.eosr ==> SameEnding(c, c')
  {
  }

  /** The second half of gpib_read: standby, the read, and ATN again. */
  method ReadAddressed(c: TntChip, buf: array<bv8>, cap: nat)
    returns (rc: Status, got: nat, end: bool, ghost lost: nat)
    requires Ready(c) && c.io.core.lines.cic && cap <= buf.Length
    requires Limited(c, Answers(Released(c.io.core), c.io.dev, cap))
    modifies c`auxra, c`isr1, c`isr2, c.io, buf
    ensures Ready(c) && SameEnding(old(c.io.core), c.io.core)
    ensures c.io.core.lines == old(c.io.core.lines).(atn := true)
    ensures got <= cap && got + lost <= |Offer(old(c.io.dev))|
    ensures buf[..got] == BytesOf(Offer(old(c.io.dev))[..got])
    ensures c.io.dev == Taken(old(c.io.dev), got + lost)
    ensures got + lost > 0 ==> old(c.io.dev.mode.talking)
    ensures forall i :: 0 <= i && i + 1 < got ==> !Ends(old(c.io.core), Offer(old(c.io.dev))[i])
    ensures rc == OK ==> lost == 0
    ensures rc == OK && cap > 0 ==>
              && got > 0 && (got == cap || end)
              && end == Ends(old(c.io.core), Offer(old(c.io.dev))[got - 1])
    ensures rc != ETIMEOUT || c.io.eager ==> lost == 0
    ensures rc != ENOTCIC
    ensures c.io.eager && old(Answers(Released(c.io.core), c.io.dev, cap)) && cap <= MAX_TRANSFER ==> rc == OK
  {
    hide Has, Ends, Offer, Taken, SameEnding, BytesOf, Answers;
    ghost var core0 := c.io.core;
    got, end, lost := 0, false, 0;
    rc := TntGoToStandby(c);
    if rc != OK {
      assert false;   // the controller is in charge
    }
    ghost var core1 := c.io.core;
    rc, got, end, lost := TntRead(c, buf, cap);
    ghost var core2 := c.io.core;
    SameByAux(core0, core1);
    SameEndsAll(core0, core1);
    var rc2 := TntTakeControl(c, false);
    SameByAux(core2, c.io.core);
    ChainEnding(core0, core1, core2);
    ChainEnding(core0, core2, c.io.core);
    if rc2 != OK && rc == OK {
      rc := EIO;
    }
  }

  lemma NothingOffered(d: Device, none: seq<bv8>)
    requires none == []
    ensures none == BytesOf(Offered(d)[..0]) && Stream(d)[0..] == Stream(d)
  {
  }

  lemma SilentGivesNothing(d: Device, got: nat, bytes: seq<bv8>, offered: seq<Item>)
    requires got <= |Offer(d)| && bytes == BytesOf(Offer(d)[..got]) && got <= |offered|
    ensures got == 0 || Offer(d) == offered ==> bytes == BytesOf(offered[..got])
  {
    hide Offer;
  }

  lemma SameStream(d': Device, d: Device)
    requires SameStreams(d', d)
    ensures Stream(d') == Stream(d) && BytesOf(Stream(d)[..0]) == [] && Stream(d)[0..] == Stream(d)
    ensures d'.pad == d.pad && d'.rx == d.rx
  {
  }

  /** No message ends within the first n bytes. */
  ghost predicate Unended(core: Core, all: seq<Item>, n: nat)
    requires n <= |all|
  {
    forall i :: 0 <= i < n ==> !Ends(core, all[i])
  }

  /** What has been collected is the stream up to here, with no message end but maybe the last byte. */
  ghost predicate Collected(core: Core, all: seq<Item>, out: seq<bv8>, end: bool) {
    && |out| <= |all| && out == BytesOf(all[..|out|])
    && (if end then |out| > 0 && Unended(core, all, |out| - 1) && Ends(core, all[|out| - 1])
        else Unended(core, all, |out|))
  }

  /** One more read that stopped at a message end or filled its buffer. */
  lemma Joined(core: Core, core': Core, all: seq<Item>, out: seq<bv8>, more: seq<bv8>, end: bool)
    requires Collected(core, all, out, false) && SameEnding(core, core')
    requires |more| <= |all[|out|..]| && more == BytesOf(all[|out|..][..|more|])
    requires forall i :: 0 <= i && i + 1 < |more| ==> !Ends(core', all[|out|..][i])
    ensures |out + more| <= |all| && out + more == BytesOf(all[..|out + more|])
    ensures |out + more| > 0 ==> Unended(core, all, |out + more| - 1)
    ensures |more| > 0 && end == Ends(core', all[|out|..][|more| - 1]) ==> Collected(core, all, out + more, end)
  {
    hide Ends;
    SameEndsAll(core, core');
    var a, n := |out|, |more|;
    forall i | a <= i && i + 1 < a + n ensures !Ends(core, all[i]) {
      assert all[a..][i - a] == all[i];
    }
    if n > 0 {
      assert all[a..][n - 1] == all[a + n - 1];
    }
  }

  lemma DropTwice(all: seq<Item>, a: nat, b: nat)
    requires a + b <= |all|
    ensures all[a..][b..] == all[a + b..]
  {
  }

  ghost predicate HasEnd(core: Core, all: seq<Item>) {
    exists i :: 0 <= i < |all| && Ends(core, all[i])
  }

  lemma EndAhead(core: Core, core': Core, all: seq<Item>, a: nat, cap: nat)
    requires a <= |all| && SameEnding(core, core') && Unended(core, all, a)
    ensures HasEnd(core, all) ==> Enough(core', all[a..], cap)
  {
    hide Ends;
    SameEndsAll(core, core');
    if HasEnd(core, all) {
      var i :| 0 <= i < |all| && Ends(core, all[i]);
      assert all[a..][i - a] == all[i];
    }
  }

  /** do_read of the gateway: read after read until a message ends. What is collected is the
      next message of the instrument's stream, to its last byte and no further, however the
      reads cut it up. */
  method ReadMessage(c: TntChip, pad: int, sad: int, buf: array<bv8>)
    returns (rc: Status, out: seq<bv8>, ghost lost: nat)
    requires Ready(c) && !c.io.dev.mode.spe && 0 < buf.Length <= MAX_TRANSFER
    requires Limited(c, (c.io.dev.pad as int) == pad && HasEnd(c.io.core, Stream(c.io.dev)))
    modifies c`auxra, c`isr1, c`isr2, c.io, buf
    ensures Ready(c) && !c.io.dev.mode.spe && SameEnding(old(c.io.core), c.io.core)
    ensures |out| + lost <= |Stream(old(c.io.dev))|
    ensures out == BytesOf(Stream(old(c.io.dev))[..|out|])
    ensures Stream(c.io.dev) == Stream(old(c.io.dev))[|out| + lost..]
    ensures |out| > 0 ==> Unended(old(c.io.core), Stream(old(c.io.dev)), |out| - 1)
    ensures rc == OK ==> lost == 0 && |out| > 0 && Ends(old(c.io.core), Stream(old(c.io.dev))[|out| - 1])
    ensures rc != ETIMEOUT || c.io.eager ==> lost == 0
    ensures old(Reaches(c, pad, sad) && HasEnd(c.io.core, Stream(c.io.dev))) ==> rc == OK
  {
    hide *;
    ghost var core0, all := c.io.core, Stream(c.io.dev);
    rc, out, lost := OK, [], 0;
    StartReading(core0, all);
    StillReaches(c, pad, sad);
    LimitedIs(c, (c.io.dev.pad as int) == pad && HasEnd(core0, all));
    var end := false;
    while !end
      invariant rc == OK && lost == 0 && |out| <= |all|
      invariant Ready(c) && !c.io.dev.mode.spe && SameEnding(core0, c.io.core)
      invariant c.io.dev.pad == old(c.io.dev.pad) && c.io.dev.present == old(c.io.dev.present)
      invariant c.io.core.lines.cic == old(c.io.core.lines.cic)
      invariant Collected(core0, all, out, end) && Stream(c.io.dev) == all[|out|..]
      decreases |all| - |out|, if end then 0 else 1
    {
      ghost var core1 := c.io.core;
      Uncollected(core0, all, out);
      EndAhead(core0, core1, all, |out|, buf.Length);
      OfferedPlain(c.io.dev);
      LimitedIs(c, (c.io.dev.pad as int) == pad && Enough(core1, Offered(c.io.dev), buf.Length));
      StillReaches(c, pad, sad);
      var got;
      rc, got, end, lost := GpibRead(c, pad, sad, buf, buf.Length);
      Joined(core0, core1, all, out, buf[..got], end);
      DropTwice(all, |out|, got + lost);
      ChainEnding(core0, core1, c.io.core);
      out := out + buf[..got];
      if rc != OK {
        return;
      }
    }
    MessageEnds(core0, all, out);
  }

  lemma Uncollected(core: Core, all: seq<Item>, out: seq<bv8>)
    requires Collected(core, all, out, false)
    ensures |out| <= |all| && Unended(core, all, |out|)
  {
  }

  lemma OfferedPlain(d: Device)
    ensures !d.mode.spe ==> Offered(d) == Stream(d)
  {
  }

  lemma LimitedIs(c: TntChip, answers: bool)
    ensures Limited(c, answers) <==> c.timeoutMs != 0 || (c.io.eager && answers)
  {
  }

  lemma StillReaches(c: TntChip, pad: int, sad: int)
    ensures Reaches(c, pad, sad) <==>
              && c.io.eager && ValidAddress(pad, sad) && c.io.core.lines.cic
              && c.io.dev.present && (c.io.dev.pad as int) == pad
  {
  }

  lemma StartReading(core: Core, all: seq<Item>)
    ensures Collected(core, all, [], false) && all[0..] == all && SameEnding(core, core)
  {
  }

  lemma ChainEnding(a: Core, b: Core, c: Core)
    requires SameEnding(a, b) && SameEnding(b, c)
    ensures SameEnding(a, c)
  {
  }

  lemma MessageEnds(core: Core, all: seq<Item>, out: seq<bv8>)
    requires Collected(core, all, out, true)
    ensures 0 < |out| <= |all| && out == BytesOf(all[..|out|])
    ensures Unended(core, all, |out| - 1) && Ends(core, all[|out| - 1])
  {
  }

  /** An instrument in serial-poll mode will talk once ATN is released, and has its byte to give. */
  predicate GivesStatus(core: Core, d: Device) {
    MayTalk(Released(core), d) && !d.mode.speSent
  }

  /** The read of the status byte. */
  method ReadStatus(c: TntChip) returns (rc: Status, status: bv8)
    requires Ready(c) && c.io.core.lines.cic && c.io.dev.mode.spe
    requires Limited(c, GivesStatus(c.io.core, c.io.dev))
    modifies c`auxra, c`isr1, c`isr2, c.io
    ensures Ready(c) && c.io.core.lines.cic
    ensures Stream(c.io.dev) == Stream(old(c.io.dev))
    ensures var d, d' := old(c.io.dev), c.io.dev; d'.rx == d.rx && d'.pad == d.pad && d'.present == d.present
    ensures c.io.dev.commands == old(c.io.dev.commands)
    ensures rc == OK ==> old(c.io.dev.mode.talking) && (old(!c.io.dev.mode.speSent) ==> status == old(c.io.dev.stb))
    ensures c.io.eager && old(GivesStatus(c.io.core, c.io.dev)) ==> rc == OK
  {
    hide Has, Ends, Offer, Taken, Stream, Enough, SameEnding;
    status := 0;
    rc := TntGoToStandby(c);
    if rc != OK {
      assert false;   // the controller is in charge
    }
    ghost var core1, dev1 := c.io.core, c.io.dev;
    PolledAnswer(core1, dev1);
    var buf := new bv8[1](i => 0);
    var got, end;
    ghost var lost;
    rc, got, end, lost := TntRead(c, buf, 1);
    PolledOffer(dev1, got + lost);
    status := buf[0];
    if rc == OK {
      assert buf[..got] == [status];
      if got != 1 {
        rc := EIO;
      }
    }
  }

  /** The first half of the serial poll: addressing and the read of one byte. */
  method PollOnce(c: TntChip, pad: int, sad: int) returns (rc: Status, status: bv8)
    requires Ready(c) && ValidAddress(pad, sad) && Limited(c, (c.io.dev.pad as int) == pad)
    modifies c`auxra, c`isr1, c`isr2, c.io
    ensures Ready(c)
    ensures c.io.core.lines.cic == old(c.io.core.lines.cic) && c.io.dev.present == old(c.io.dev.present)
    ensures Stream(c.io.dev) == Stream(old(c.io.dev)) && c.io.dev.rx == old(c.io.dev.rx)
    ensures c.io.dev.pad == old(c.io.dev.pad)
    ensures rc == OK ==> (c.io.dev.pad as int) == pad && status == old(c.io.dev.stb)
    ensures rc == OK ==>
              c.io.dev.commands == old(c.io.dev.commands)
              + ([0x3F, 0x20 + c.pad, 0x18, 0x40 + Byte(pad)] + (if sad < 0 then [] else [0x60 + Byte(sad)]))
    ensures old(Reaches(c, pad, sad)) ==> rc == OK
  {
    hide Has, Ends, Offer, Taken, Stream, PollPrefix, ReactAll, TakeRoles;
    status := 0;
    PadByte(pad);
    var p := Byte(pad);
    SameByte(c.io.dev.pad, pad);
    PollPrefixOnDevice(c.io.dev.mode, c.io.dev.pad, c.pad, p, sad);
    PollPrefixOnUs(c.io.core.role, c.pad, p, sad);
    PollPrefixLength(c.pad, p, sad);
    PollBytesAre(c.pad, p, sad);
    ghost var dev0 := c.io.dev;
    var cmd := BuildPoll(c, p, sad);
    ghost var sent;
    rc, sent := GpibSendCommands(c, cmd);
    SameStream(c.io.dev, dev0);
    if rc == OK {
      rc, status := ReadStatus(c);
    }
  }

  lemma PollPrefixLength(mypad: bv8, pad: bv8, sad: int)
    ensures 0 < |PollPrefix(mypad, pad, sad)| <= MAX_TRANSFER
  {
    hide Lad, Tad, Sad;
  }

  /** In serial-poll mode the talker offers its status byte once and keeps its stream. */
  lemma PolledOffer(d: Device, n: nat)
    requires d.mode.spe && n <= |Offer(d)|
    ensures Stream(Taken(d, n)) == Stream(d)
    ensures var d' := Taken(d, n); d'.rx == d.rx && d'.stb == d.stb && d'.pad == d.pad && d'.present == d.present
    ensures Taken(d, n).commands == d.commands
    ensures !d.mode.speSent ==> Offer(d) == [Item(d.stb, false)]
  {
    TakenOffer(d, n);
  }

  lemma PolledAnswer(core: Core, d: Device)
    requires d.mode.spe
    ensures MayTalk(core, d) && !d.mode.speSent ==> Answers(core, d, 1)
  {
    hide Ends;
  }

  method BuildPoll(c: TntChip, p: bv8, sad: int) returns (cmd: seq<bv8>)
    ensures cmd == PollPrefix(c.pad, p, sad)
  {
    cmd := [UNL];
    cmd := cmd + [Lad(c.pad)];
    cmd := cmd + [SPE];
    cmd := cmd + [Tad(p)];
    if sad >= 0 {
      cmd := cmd + [Sad(Byte(sad))];
    }
  }

  lemma PollTailOnUs(r: Role, mypad: bv8)
    ensures !TakeRoles(r, mypad, PollTail()).talker
  {
    PollBytes(0);
    var r1 := TakeRole(r, mypad, SPD);
    assert PollTail()[1..] == [UNT];
    assert TakeRoles(r1, mypad, [UNT]) == TakeRole(r1, mypad, UNT);
  }

  /** gpib_serial_poll, from any addressing state: success yields the status byte of the
      instrument at the address. The instrument's data stream is untouched whatever happens, a
      controller in charge asserts ATN again, and where the bus keeps up the instrument is out of
      serial-poll mode afterwards even if the poll failed. */
  method GpibSerialPoll(c: TntChip, pad: int, sad: int) returns (rc: Status, status: bv8)
    requires Ready(c) && Limited(c, (c.io.dev.pad as int) == pad)
    modifies c`auxra, c`isr1, c`isr2, c.io
    ensures Ready(c)
    ensures Stream(c.io.dev) == Stream(old(c.io.dev)) && c.io.dev.rx == old(c.io.dev.rx)
    ensures rc == OK ==> (c.io.dev.pad as int) == pad && status == old(c.io.dev.stb)
    ensures rc == OK || (c.io.eager && ValidAddress(pad, sad) && old(c.io.core.lines.cic && c.io.dev.present)) ==>
              !c.io.dev.mode.spe && !c.io.dev.mode.talking && !c.io.core.role.talker
    ensures rc == OK ==>
              c.io.dev.commands == old(c.io.dev.commands)
              + ([0x3F, 0x20 + c.pad, 0x18, 0x40 + Byte(pad)] + (if sad < 0 then [] else [0x60 + Byte(sad)]))
              + [0x19, 0x5F]
    ensures old(Reaches(c, pad, sad)) ==> rc == OK
    ensures ValidAddress(pad, sad) && old(c.io.core.lines.cic) ==> c.io.core.lines.atn
    ensures rc == OK ==> c.io.core.lines.atn
    ensures !ValidAddress(pad, sad) ==> rc == EINVAL && c.Now() == old(c.Now())
  {
    hide Has, Ends, Offer, Taken, Stream, PollPrefix, ReactAll, TakeRoles;
    status := 0;
    if !ValidAddress(pad, sad) {
      return EINVAL, 0;
    }
    rc, status := PollOnce(c, pad, sad);
    var rc2 := TntTakeControl(c, false);
    if rc2 != OK && rc == OK {
      rc := EIO;
    }
    ghost var mode1, role1, dev1 := c.io.dev.mode, c.io.core.role, c.io.dev;
    PollTailOnDevice(mode1, c.io.dev.pad);
    PollTailOnUs(role1, c.pad);
    PollBytesAre(0, 0, -1);
    var rc3;
    ghost var sent;
    rc3, sent := GpibSendCommands(c, PollTail());
    SameStream(c.io.dev, dev1);
    if rc3 != OK && rc == OK {
      rc := EIO;
    }
  }
}
