/** The addressing sequences of src/gpib/gpib488.c on a bus with any number of instruments:
    who talks and who listens after them, whatever went before. */
module Addressing {
  import opened Words
  import opened TntRegs
  import opened ChipModel

  datatype Instrument = Instrument(pad: bv8, mode: Mode)

  /** Every instrument on the bus, and us. */
  datatype Bus = Bus(devs: seq<Instrument>, mypad: bv8, role: Role)

  /** A command byte reaches everybody at once. */
  function Broadcast(bus: Bus, b: bv8): Bus {
    bus.(devs := seq(|bus.devs|, i requires 0 <= i < |bus.devs| =>
                       bus.devs[i].(mode := React(bus.devs[i].mode, bus.devs[i].pad, b))),
         role := TakeRole(bus.role, bus.mypad, b))
  }

  function BroadcastAll(bus: Bus, cmds: seq<bv8>): Bus
    decreases |cmds|
  {
    if cmds == [] then bus else BroadcastAll(Broadcast(bus, cmds[0]), cmds[1..])
  }

  predicate ValidPad(pad: bv8) { pad <= 30 }

  /** Primary addresses are valid and no two parties share one. */
  predicate Distinct(bus: Bus) {
    && ValidPad(bus.mypad)
    && (forall i :: 0 <= i < |bus.devs| ==> ValidPad(bus.devs[i].pad) && bus.devs[i].pad != bus.mypad)
    && (forall i, j :: 0 <= i < j < |bus.devs| ==> bus.devs[i].pad != bus.devs[j].pad)
  }

  /** At most one party is addressed to talk. */
  predicate OneTalker(bus: Bus) {
    && (forall i, j :: 0 <= i < j < |bus.devs| ==> !(bus.devs[i].mode.talking && bus.devs[j].mode.talking))
    && (forall i :: 0 <= i < |bus.devs| ==> !(bus.devs[i].mode.talking && bus.role.talker))
  }

  /** What a command byte does to the talker state of a party with the given address. */
  lemma TalkerRule(m: Mode, r: Role, pad: bv8, b: bv8)
    ensures React(m, pad, b).talking ==> (m.talking && !IsTad(b)) || (IsTad(b) && Addr(b) == pad)
    ensures TakeRole(r, pad, b).talker ==> (r.talker && !IsTad(b)) || (IsTad(b) && Addr(b) == pad)
  {
    TadIsNotLad(b);
  }

  lemma TadIsNotLad(b: bv8)
    ensures IsTad(b) ==> !IsLad(b) && b != UNL && b != UNT
  {
  }

  lemma {:induction false} OneTalkerStep(bus: Bus, b: bv8)
    requires Distinct(bus) && OneTalker(bus)
    ensures Distinct(Broadcast(bus, b)) && OneTalker(Broadcast(bus, b))
  {
    hide React, TakeRole, IsTad, Addr;
    var next := Broadcast(bus, b);
    forall i | 0 <= i < |bus.devs|
      ensures next.devs[i].mode.talking ==>
                (bus.devs[i].mode.talking && !IsTad(b)) || (IsTad(b) && Addr(b) == bus.devs[i].pad)
    {
      TalkerRule(bus.devs[i].mode, bus.role, bus.devs[i].pad, b);
    }
    TalkerRule(Mode(false, false, false, false, 0, 0, false, false), bus.role, bus.mypad, b);
  }

  /** No sequence of command bytes ever addresses two talkers. */
  lemma {:induction false} NeverTwoTalkers(bus: Bus, cmds: seq<bv8>)
    requires Distinct(bus) && OneTalker(bus)
    ensures Distinct(BroadcastAll(bus, cmds)) && OneTalker(BroadcastAll(bus, cmds))
    decreases |cmds|
  {
    hide Broadcast, Distinct, OneTalker;
    if cmds != [] {
      OneTalkerStep(bus, cmds[0]);
      NeverTwoTalkers(Broadcast(bus, cmds[0]), cmds[1..]);
    }
  }

  // ---- The addressing prefix ----------------------------------------------------------

  function SadBytes(sad: int): seq<bv8> {
    if sad < 0 then [] else [Sad(Byte(sad))]
  }

  /** gpib_build_address: UNL, the device, its secondary address if any, us, ours if any. */
  function AddressPrefix(mypad: bv8, mysad: int, pad: bv8, sad: int, deviceTalks: bool): seq<bv8> {
    [UNL, if deviceTalks then Tad(pad) else Lad(pad)] + SadBytes(sad) +
    [if deviceTalks then Lad(mypad) else Tad(mypad)] + SadBytes(mysad)
  }

  /** A valid primary address never encodes as UNL or UNT, and decodes to itself. */
  lemma PadEncodes(pad: bv8)
    requires ValidPad(pad)
    ensures IsTad(Tad(pad)) && Addr(Tad(pad)) == pad && Tad(pad) != UNT && Tad(pad) != UNL && !IsLad(Tad(pad))
    ensures IsLad(Lad(pad)) && Addr(Lad(pad)) == pad && Lad(pad) != UNT && Lad(pad) != UNL
  {
  }

  /** The bytes that carry an address: a primary one to listen or to talk, and a secondary one.
      None of them is 0x3F, 0x5F or 0x7F. */
  lemma AddressBytes(address: bv8)
    requires address <= 30
    ensures Lad(address) == 0x20 + address && Tad(address) == 0x40 + address && Sad(address) == 0x60 + address
    ensures Sad(address) & 0x60 == 0x60 && Sad(address) & 0x1F == address && Sad(address) != 0x7F
  {
  }

  /** What a party takes for its listen or talk address. */
  lemma AddressRanges(b: bv8)
    requires b < 0x80
    ensures IsLad(b) <==> 0x20 <= b <= 0x3E
    ensures IsTad(b) <==> 0x40 <= b <= 0x5E
    ensures IsLad(b) ==> Addr(b) == b - 0x20
    ensures IsTad(b) ==> Addr(b) == b - 0x40
  {
  }

  lemma SecondaryBytes(sad: int)
    requires sad <= 30
    ensures SadBytes(sad) == if sad < 0 then [] else [0x60 + Byte(sad)]
  {
    hide Sad, Byte;
    if sad >= 0 {
      assert sad % 0x100 == sad;
      AtMost30(Byte(sad));
      AddressBytes(Byte(sad));
    }
  }

  /** Every byte of the prefix. */
  lemma PrefixBytes(mypad: bv8, mysad: int, pad: bv8, sad: int, deviceTalks: bool)
    requires mypad <= 30 && mysad <= 30 && pad <= 30 && sad <= 30
    ensures AddressPrefix(mypad, mysad, pad, sad, deviceTalks)
         == [0x3F, (if deviceTalks then 0x40 else 0x20) + pad] + (if sad < 0 then [] else [0x60 + Byte(sad)])
          + [(if deviceTalks then 0x20 else 0x40) + mypad] + (if mysad < 0 then [] else [0x60 + Byte(mysad)])
  {
    hide Lad, Tad, SadBytes, Byte;
    AddressBytes(pad);
    AddressBytes(mypad);
    SecondaryBytes(sad);
    SecondaryBytes(mysad);
  }

  /** Every byte of a serial poll, before and after the status byte. */
  lemma PollBytesAre(mypad: bv8, pad: bv8, sad: int)
    requires mypad <= 30 && pad <= 30 && sad <= 30
    ensures PollPrefix(mypad, pad, sad)
         == [0x3F, 0x20 + mypad, 0x18, 0x40 + pad] + (if sad < 0 then [] else [0x60 + Byte(sad)])
    ensures PollTail() == [0x19, 0x5F]
  {
    hide Lad, Tad, SadBytes, Byte;
    AddressBytes(pad);
    AddressBytes(mypad);
    SecondaryBytes(sad);
  }

  /** Every byte of an addressed command. */
  lemma CommandBytesAre(pad: bv8, sad: int, command: bv8)
    requires pad <= 30 && sad <= 30
    ensures AddressedCommand(pad, sad, command)
         == [0x3F, 0x20 + pad] + (if sad < 0 then [] else [0x60 + Byte(sad)]) + [command]
  {
    hide Lad, Tad, SadBytes, Byte;
    AddressBytes(pad);
    SecondaryBytes(sad);
  }

  /** Secondary addresses and unknown bytes pass by the simulated parties. */
  lemma SadPassesBy(m: Mode, r: Role, pad: bv8, sad: bv8)
    ensures React(m, pad, Sad(sad)) == m && TakeRole(r, pad, Sad(sad)) == r
  {
    SadIsNoCommand(sad);
  }

  lemma SadIsNoCommand(sad: bv8)
    ensures var b := Sad(sad);
            && !IsLad(b) && !IsTad(b) && b != UNL && b != UNT && b != SPE && b != SPD && b != DCL
            && b != SDC && b != GET && b != GTL && b != LLO
  {
  }

  /** A command sequence as one party sees it. */
  function ReactAll(m: Mode, pad: bv8, cmds: seq<bv8>): Mode
    decreases |cmds|
  {
    if cmds == [] then m else ReactAll(React(m, pad, cmds[0]), pad, cmds[1..])
  }

  function TakeRoles(r: Role, mypad: bv8, cmds: seq<bv8>): Role
    decreases |cmds|
  {
    if cmds == [] then r else TakeRoles(TakeRole(r, mypad, cmds[0]), mypad, cmds[1..])
  }

  lemma {:induction false} ReactConcat(m: Mode, pad: bv8, a: seq<bv8>, b: seq<bv8>)
    ensures ReactAll(m, pad, a + b) == ReactAll(ReactAll(m, pad, a), pad, b)
    decreases |a|
  {
    hide React;
    if a == [] {
      assert a + b == b;
    } else {
      assert (a + b)[0] == a[0] && (a + b)[1..] == a[1..] + b;
      ReactConcat(React(m, pad, a[0]), pad, a[1..], b);
    }
  }

  lemma {:induction false} RolesConcat(r: Role, pad: bv8, a: seq<bv8>, b: seq<bv8>)
    ensures TakeRoles(r, pad, a + b) == TakeRoles(TakeRoles(r, pad, a), pad, b)
    decreases |a|
  {
    hide TakeRole;
    if a == [] {
      assert a + b == b;
    } else {
      assert (a + b)[0] == a[0] && (a + b)[1..] == a[1..] + b;
      RolesConcat(TakeRole(r, pad, a[0]), pad, a[1..], b);
    }
  }

  lemma SadBytesPassBy(m: Mode, r: Role, pad: bv8, sad: int)
    ensures ReactAll(m, pad, SadBytes(sad)) == m && TakeRoles(r, pad, SadBytes(sad)) == r
  {
    hide React, TakeRole, Sad, Byte;
    if sad >= 0 {
      SadPassesBy(m, r, pad, Byte(sad));
    }
  }

  /** The addressing commands as one instrument takes them. */
  lemma AddressingBytes(m: Mode, devpad: bv8, pad: bv8)
    requires ValidPad(pad)
    ensures React(m, devpad, UNL) == m.(listening := false)
    ensures React(m, devpad, Lad(pad)) == m.(listening := m.listening || devpad == pad)
    ensures React(m, devpad, Tad(pad))
         == m.(talking := devpad == pad, speSent := m.speSent && !(m.spe && devpad == pad))
  {
    hide Lad, Tad, IsLad, IsTad, Addr;
    PadEncodes(pad);
  }

  /** Of the prefix, three bytes matter to a party without a secondary address. */
  lemma PrefixSteps(m: Mode, devpad: bv8, mypad: bv8, mysad: int, pad: bv8, sad: int, deviceTalks: bool)
    ensures ReactAll(m, devpad, AddressPrefix(mypad, mysad, pad, sad, deviceTalks))
         == React(React(React(m, devpad, UNL), devpad, if deviceTalks then Tad(pad) else Lad(pad)),
                  devpad, if deviceTalks then Lad(mypad) else Tad(mypad))
  {
    hide React, TakeRole, Lad, Tad, SadBytes;
    var first := [UNL, if deviceTalks then Tad(pad) else Lad(pad)];
    var us := [if deviceTalks then Lad(mypad) else Tad(mypad)];
    ReactConcat(m, devpad, first + SadBytes(sad) + us, SadBytes(mysad));
    ReactConcat(m, devpad, first + SadBytes(sad), us);
    ReactConcat(m, devpad, first, SadBytes(sad));
    var m1 := React(m, devpad, UNL);
    var m2 := React(m1, devpad, first[1]);
    assert first[1..] == [first[1]];
    assert ReactAll(m, devpad, first) == ReactAll(m1, devpad, first[1..]) == m2;
    SadBytesPassBy(m2, Role(false, false), devpad, sad);
    SadBytesPassBy(React(m2, devpad, us[0]), Role(false, false), devpad, mysad);
    assert ReactAll(m2, devpad, us) == React(m2, devpad, us[0]);
  }

  /** What the prefix leaves of one instrument: it talks if the talker's address is its own, it
      listens if the listener's is, and serial-poll mode is as it was. */
  lemma {:induction false} PrefixOnDevice(m: Mode, devpad: bv8, mypad: bv8, mysad: int, pad: bv8,
                                         sad: int, deviceTalks: bool)
    requires ValidPad(pad) && ValidPad(mypad)
    ensures var m' := ReactAll(m, devpad, AddressPrefix(mypad, mysad, pad, sad, deviceTalks));
            && m'.talking == (devpad == if deviceTalks then pad else mypad)
            && m'.listening == (devpad == if deviceTalks then mypad else pad)
            && m'.spe == m.spe && m'.cleared == m.cleared && m'.triggered == m.triggered
            && m'.speSent == (m.speSent && !(m.spe && m'.talking))
  {
    hide React, ReactAll, AddressPrefix, Lad, Tad;
    PrefixSteps(m, devpad, mypad, mysad, pad, sad, deviceTalks);
    AddressingBytes(m, devpad, pad);
    var m1 := React(m, devpad, UNL);
    AddressingBytes(m1, devpad, pad);
    var m2 := React(m1, devpad, if deviceTalks then Tad(pad) else Lad(pad));
    AddressingBytes(m2, devpad, mypad);
  }

  /** And of us. A device at our own address would have us talk and listen at once. */
  lemma {:induction false} PrefixOnUs(r: Role, mypad: bv8, mysad: int, pad: bv8, sad: int, deviceTalks: bool)
    requires ValidPad(pad) && ValidPad(mypad)
    ensures TakeRoles(r, mypad, AddressPrefix(mypad, mysad, pad, sad, deviceTalks))
         == Role(!deviceTalks || pad == mypad, deviceTalks || pad == mypad)
  {
    hide Sad, Lad, Tad, IsLad, IsTad, Addr;
    var first := [UNL, if deviceTalks then Tad(pad) else Lad(pad)];
    var us := [if deviceTalks then Lad(mypad) else Tad(mypad)];
    PadEncodes(pad);
    PadEncodes(mypad);
    RolesConcat(r, mypad, first + SadBytes(sad) + us, SadBytes(mysad));
    RolesConcat(r, mypad, first + SadBytes(sad), us);
    RolesConcat(r, mypad, first, SadBytes(sad));
    var r1 := TakeRole(r, mypad, UNL);
    var r2 := TakeRole(r1, mypad, first[1]);
    assert first[1..] == [first[1]];
    assert TakeRoles(r, mypad, first) == TakeRoles(r1, mypad, first[1..]) == r2;
    var m := Mode(false, false, false, false, 0, 0, false, false);
    SadBytesPassBy(m, r2, mypad, sad);
    SadBytesPassBy(m, TakeRole(r2, mypad, us[0]), mypad, mysad);
    assert TakeRoles(r2, mypad, us) == TakeRole(r2, mypad, us[0]);
  }

  /** The bus is the sum of its parties. */
  lemma {:induction false} BusByParty(bus: Bus, cmds: seq<bv8>)
    ensures var bus' := BroadcastAll(bus, cmds);
            && |bus'.devs| == |bus.devs| && bus'.mypad == bus.mypad
            && bus'.role == TakeRoles(bus.role, bus.mypad, cmds)
            && forall i :: 0 <= i < |bus.devs| ==>
                 bus'.devs[i] == bus.devs[i].(mode := ReactAll(bus.devs[i].mode, bus.devs[i].pad, cmds))
    decreases |cmds|
  {
    hide React, TakeRole;
    if cmds != [] {
      BusByParty(Broadcast(bus, cmds[0]), cmds[1..]);
    }
  }

  /** After the prefix the talker and the only listener are the device and us, in the direction
      asked for, whatever the bus was doing. */
  lemma {:induction false} PrefixAddresses(bus: Bus, mysad: int, pad: bv8, sad: int, deviceTalks: bool)
    requires Distinct(bus) && ValidPad(pad) && pad != bus.mypad
    ensures var bus' := BroadcastAll(bus, AddressPrefix(bus.mypad, mysad, pad, sad, deviceTalks));
            && |bus'.devs| == |bus.devs|
            && bus'.role == Role(!deviceTalks, deviceTalks)
            && (forall i :: 0 <= i < |bus.devs| ==>
                  && bus'.devs[i].mode.talking == (deviceTalks && bus.devs[i].pad == pad)
                  && bus'.devs[i].mode.listening == (!deviceTalks && bus.devs[i].pad == pad))
  {
    hide ReactAll, TakeRoles, BroadcastAll, AddressPrefix;
    var cmds := AddressPrefix(bus.mypad, mysad, pad, sad, deviceTalks);
    BusByParty(bus, cmds);
    PrefixOnUs(bus.role, bus.mypad, mysad, pad, sad, deviceTalks);
    forall i | 0 <= i < |bus.devs|
      ensures var m' := ReactAll(bus.devs[i].mode, bus.devs[i].pad, cmds);
              m'.talking == (deviceTalks && bus.devs[i].pad == pad) &&
              m'.listening == (!deviceTalks && bus.devs[i].pad == pad)
    {
      PrefixOnDevice(bus.devs[i].mode, bus.devs[i].pad, bus.mypad, mysad, pad, sad, deviceTalks);
    }
  }

  /** Only SPE and SPD change serial-poll mode. */
  lemma {:induction false} PollModeKept(m: Mode, pad: bv8, cmds: seq<bv8>)
    requires SPE !in cmds && SPD !in cmds
    ensures ReactAll(m, pad, cmds).spe == m.spe
    decreases |cmds|
  {
    hide IsLad, IsTad, Addr;
    if cmds != [] {
      PollModeKept(React(m, pad, cmds[0]), pad, cmds[1..]);
    }
  }

  lemma SadNoPoll(sad: int)
    ensures SPE !in SadBytes(sad) && SPD !in SadBytes(sad)
  {
    hide Sad, Byte;
    if sad >= 0 {
      SadIsNoCommand(Byte(sad));
    }
  }

  lemma PrefixNoPoll(mypad: bv8, mysad: int, pad: bv8, sad: int, deviceTalks: bool)
    requires ValidPad(pad) && ValidPad(mypad)
    ensures var p := AddressPrefix(mypad, mysad, pad, sad, deviceTalks);
            p != [] && SPE !in p && SPD !in p
  {
    hide Lad, Tad, SadBytes;
    PollBytes(pad);
    PollBytes(mypad);
    SadNoPoll(sad);
    SadNoPoll(mysad);
    assert UNL != SPE && UNL != SPD;
  }

  // ---- The serial-poll sequences ------------------------------------------------------

  /** What gpib_serial_poll sends before it reads the status byte. Our own secondary address is
      never sent here. */
  function PollPrefix(mypad: bv8, pad: bv8, sad: int): seq<bv8> {
    [UNL, Lad(mypad), SPE, Tad(pad)] + SadBytes(sad)
  }

  function PollTail(): seq<bv8> {
    [SPD, UNT]
  }

  lemma PollBytes(pad: bv8)
    requires ValidPad(pad)
    ensures !IsLad(SPE) && !IsTad(SPE) && !IsLad(SPD) && !IsTad(SPD)
    ensures Lad(pad) != SPE && Tad(pad) != SPE && Lad(pad) != SPD && Tad(pad) != SPD
  {
  }

  /** The prefix puts an instrument into serial-poll mode. It talks if it is the one polled, and
      then it has its status byte to send, from any state before. */
  lemma {:induction false} PollPrefixOnDevice(m: Mode, devpad: bv8, mypad: bv8, pad: bv8, sad: int)
    requires ValidPad(pad) && ValidPad(mypad)
    ensures var m' := ReactAll(m, devpad, PollPrefix(mypad, pad, sad));
            && m'.spe && m'.talking == (devpad == pad) && m'.listening == (devpad == mypad)
            && (devpad == pad ==> !m'.speSent)
  {
    hide Sad, Lad, Tad, IsLad, IsTad, Addr, SadBytes;
    PadEncodes(pad);
    PadEncodes(mypad);
    PollBytes(pad);
    PollBytes(mypad);
    var head := [UNL, Lad(mypad), SPE, Tad(pad)];
    ReactConcat(m, devpad, head, SadBytes(sad));
    var m1 := React(m, devpad, UNL);
    var m2 := React(m1, devpad, Lad(mypad));
    var m3 := React(m2, devpad, SPE);
    var m4 := React(m3, devpad, Tad(pad));
    assert head[1..] == [Lad(mypad), SPE, Tad(pad)];
    assert [Lad(mypad), SPE, Tad(pad)][1..] == [SPE, Tad(pad)];
    assert [SPE, Tad(pad)][1..] == [Tad(pad)];
    assert ReactAll(m3, devpad, [Tad(pad)]) == m4;
    assert ReactAll(m2, devpad, [SPE, Tad(pad)]) == m4;
    assert ReactAll(m1, devpad, [Lad(mypad), SPE, Tad(pad)]) == m4;
    assert ReactAll(m, devpad, head) == m4;
    SadBytesPassBy(m4, Role(false, false), devpad, sad);
  }

  lemma {:induction false} PollPrefixOnUs(r: Role, mypad: bv8, pad: bv8, sad: int)
    requires ValidPad(pad) && ValidPad(mypad)
    ensures TakeRoles(r, mypad, PollPrefix(mypad, pad, sad)) == Role(pad == mypad, true)
  {
    hide Sad, Lad, Tad, IsLad, IsTad, Addr, SadBytes;
    PadEncodes(pad);
    PadEncodes(mypad);
    PollBytes(pad);
    PollBytes(mypad);
    var head := [UNL, Lad(mypad), SPE, Tad(pad)];
    RolesConcat(r, mypad, head, SadBytes(sad));
    var r1 := TakeRole(r, mypad, UNL);
    var r2 := TakeRole(r1, mypad, Lad(mypad));
    var r3 := TakeRole(r2, mypad, SPE);
    var r4 := TakeRole(r3, mypad, Tad(pad));
    assert head[1..] == [Lad(mypad), SPE, Tad(pad)];
    assert [Lad(mypad), SPE, Tad(pad)][1..] == [SPE, Tad(pad)];
    assert [SPE, Tad(pad)][1..] == [Tad(pad)];
    assert TakeRoles(r3, mypad, [Tad(pad)]) == r4;
    assert TakeRoles(r2, mypad, [SPE, Tad(pad)]) == r4;
    assert TakeRoles(r1, mypad, [Lad(mypad), SPE, Tad(pad)]) == r4;
    assert TakeRoles(r, mypad, head) == r4;
    SadBytesPassBy(Mode(false, false, false, false, 0, 0, false, false), r4, mypad, sad);
  }

  /** After the poll prefix exactly the polled instrument talks, with its status byte to give, we
      alone listen, and every instrument is in serial-poll mode, whatever the bus was doing. */
  lemma {:induction false} PollAddresses(bus: Bus, pad: bv8, sad: int)
    requires Distinct(bus) && ValidPad(pad) && pad != bus.mypad
    ensures var bus' := BroadcastAll(bus, PollPrefix(bus.mypad, pad, sad));
            && |bus'.devs| == |bus.devs|
            && bus'.role == Role(false, true)
            && (forall i :: 0 <= i < |bus.devs| ==>
                  && bus'.devs[i].mode.spe && !bus'.devs[i].mode.listening
                  && bus'.devs[i].mode.talking == (bus.devs[i].pad == pad)
                  && (bus.devs[i].pad == pad ==> !bus'.devs[i].mode.speSent))
  {
    hide ReactAll, TakeRoles, BroadcastAll, PollPrefix;
    var cmds := PollPrefix(bus.mypad, pad, sad);
    BusByParty(bus, cmds);
    PollPrefixOnUs(bus.role, bus.mypad, pad, sad);
    forall i | 0 <= i < |bus.devs|
      ensures var p, m' := bus.devs[i].pad, ReactAll(bus.devs[i].mode, bus.devs[i].pad, cmds);
              m'.spe && !m'.listening && m'.talking == (p == pad) && (p == pad ==> !m'.speSent)
    {
      PollPrefixOnDevice(bus.devs[i].mode, bus.devs[i].pad, bus.mypad, pad, sad);
    }
  }

  /** The tail takes every instrument out of serial-poll mode and untalks it. */
  lemma {:induction false} PollTailOnDevice(m: Mode, devpad: bv8)
    ensures ReactAll(m, devpad, PollTail()) == m.(spe := false, speSent := false, talking := false)
  {
    PollBytes(0);
    var m1 := React(m, devpad, SPD);
    assert PollTail()[1..] == [UNT];
    assert ReactAll(m1, devpad, [UNT]) == React(m1, devpad, UNT);
  }

  /** The tail on a whole bus, whatever the instruments did since the prefix: nobody is left in
      serial-poll mode or addressed to talk. */
  lemma {:induction false} PollLeavesBusQuiet(bus: Bus)
    ensures var bus' := BroadcastAll(bus, PollTail());
            && |bus'.devs| == |bus.devs|
            && forall i :: 0 <= i < |bus.devs| ==> !bus'.devs[i].mode.spe && !bus'.devs[i].mode.talking
  {
    hide ReactAll, TakeRoles, BroadcastAll, PollTail;
    BusByParty(bus, PollTail());
    forall i | 0 <= i < |bus.devs|
      ensures var m' := ReactAll(bus.devs[i].mode, bus.devs[i].pad, PollTail()); !m'.spe && !m'.talking
    {
      PollTailOnDevice(bus.devs[i].mode, bus.devs[i].pad);
    }
  }

  // ---- Addressed commands -------------------------------------------------------------

  /** addressed_command: UNL, the device as the only listener, then the command. */
  function AddressedCommand(pad: bv8, sad: int, command: bv8): seq<bv8> {
    [UNL, Lad(pad)] + SadBytes(sad) + [command]
  }

  /** SDC, GET and GTL reach the addressed instrument and no other. */
  lemma {:induction false} CommandReachesOne(m: Mode, devpad: bv8, pad: bv8, sad: int, command: bv8)
    requires ValidPad(pad)
    requires command == SDC || command == GET || command == GTL
    ensures var m' := ReactAll(m, devpad, AddressedCommand(pad, sad, command));
            var hit := devpad == pad;
            m' == m.(listening := hit,
                     cleared := m.cleared + (if hit && command == SDC then 1 else 0),
                     triggered := m.triggered + (if hit && command == GET then 1 else 0),
                     local := m.local || (hit && command == GTL))
  {
    hide React, TakeRole, Lad, Tad, SadBytes;
    var head := [UNL, Lad(pad)];
    ReactConcat(m, devpad, head + SadBytes(sad), [command]);
    ReactConcat(m, devpad, head, SadBytes(sad));
    var m1 := React(m, devpad, UNL);
    var m2 := React(m1, devpad, Lad(pad));
    assert head[1..] == [Lad(pad)];
    assert ReactAll(m1, devpad, [Lad(pad)]) == m2;
    assert ReactAll(m, devpad, head) == m2;
    AddressingBytes(m, devpad, pad);
    AddressingBytes(m1, devpad, pad);
    CommandTaken(m2, devpad, command);
    SadBytesPassBy(m2, Role(false, false), devpad, sad);
    assert ReactAll(m2, devpad, [command]) == React(m2, devpad, command);
  }

  lemma CommandTaken(m: Mode, devpad: bv8, command: bv8)
    requires command == SDC || command == GET || command == GTL
    ensures React(m, devpad, command)
         == m.(cleared := m.cleared + (if m.listening && command == SDC then 1 else 0),
               triggered := m.triggered + (if m.listening && command == GET then 1 else 0),
               local := m.local || (m.listening && command == GTL))
  {
    hide IsLad, IsTad;
    CommandBytes();
  }

  lemma CommandBytes()
    ensures !IsLad(SDC) && !IsTad(SDC) && !IsLad(GET) && !IsTad(GET) && !IsLad(GTL) && !IsTad(GTL)
  {
  }
}
