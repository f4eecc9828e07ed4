/** The raw tuple capture of src/gpib/cis.c and the loop of src/gpibtest/gpibtest.c that reads it
    back. */
module CisTuples {
  import opened Words
  import opened PnpId

  const CAPTURE_MAX := 1024

  /** A tuple as capture_raw lays it down; the length is stored in one byte. */
  function Laid(t: Tuple): seq<bv8> {
    [t.code, Byte(|t.data|)] + t.data
  }

  function LaidAll(tuples: seq<Tuple>): seq<bv8>
    decreases |tuples|
  {
    if tuples == [] then [] else Laid(tuples[0]) + LaidAll(tuples[1..])
  }

  /** Of the tuples offered, those that were kept: each one that still fitted. */
  function Kept(tuples: seq<Tuple>, used: nat): seq<Tuple>
    decreases |tuples|
  {
    if tuples == [] then []
    else if used + 2 + |tuples[0].data| > CAPTURE_MAX then Kept(tuples[1..], used)
    else [tuples[0]] + Kept(tuples[1..], used + 2 + |tuples[0].data|)
  }

  class CisCapture {
    const raw: array<bv8>
    var rawLen: nat

    ghost predicate Valid()
      reads this
    {
      raw.Length == CAPTURE_MAX && rawLen <= CAPTURE_MAX
    }

    constructor ()
      ensures Valid() && rawLen == 0 && fresh(raw)
    {
      raw := new bv8[CAPTURE_MAX];
      rawLen := 0;
    }

    /** capture_raw: the tuple is appended whole or not at all. */
    method CaptureRaw(t: Tuple)
      requires Valid()
      modifies this, raw
      ensures Valid()
      ensures raw[..rawLen] == old(raw[..rawLen]) +
                (if old(rawLen) + 2 + |t.data| > 1024 then [] else [t.code, Byte(|t.data|)] + t.data)
      ensures forall i :: rawLen <= i < CAPTURE_MAX ==> raw[i] == old(raw[i])
    {
      hide Byte, Laid;
      if rawLen + 2 + |t.data| > CAPTURE_MAX {
        return;
      }
      ghost var before := raw[..rawLen];
      var start := rawLen;
      raw[start] := t.code;
      raw[start + 1] := Byte(|t.data|);
      var base := start + 2;
      for i := 0 to |t.data|
        invariant forall j :: 0 <= j < start ==> raw[j] == before[j]
        invariant raw[start] == t.code && raw[start + 1] == Byte(|t.data|)
        invariant forall j :: 0 <= j < i ==> raw[base + j] == t.data[j]
        invariant forall j :: base + i <= j < CAPTURE_MAX ==> raw[j] == old(raw[j])
      {
        raw[base + i] := t.data[i];
      }
      LaidBytes(before, t, raw[..base + |t.data|]);
      LaidBody(t);
      rawLen := base + |t.data|;
    }

    /** The walk of a whole CIS as the capture sees it: of the tuples visited, the kept ones. */
    method CaptureAll(tuples: seq<Tuple>) returns (k: nat)
      requires Valid() && rawLen == 0
      modifies this, raw
      ensures k <= |tuples| && tuples[..k] == Visited(tuples, 64)
      ensures Valid() && raw[..rawLen] == LaidAll(Kept(tuples[..k], 0))
    {
      hide Laid, Captured, Kept, LaidAll, Visited;
      assert raw[..0] == [];
      CaptureStarts(tuples);
      k := 0;
      var ended := false;
      while k < |tuples| && k < CIS_MAX_TUPLES && !ended
        invariant k <= |tuples| && k <= CIS_MAX_TUPLES
        invariant ended ==> k > 0 && tuples[k - 1].code == CISTPL_END
        invariant forall i :: 0 <= i < (if ended then k - 1 else k) ==> tuples[i].code != CISTPL_END
        invariant Valid() && Captured(raw[..rawLen], tuples, k)
        decreases |tuples| - k
      {
        ghost var before := raw[..rawLen];
        LaidBody(tuples[k]);
        CaptureRaw(tuples[k]);
        CaptureStep(before, tuples, k, raw[..rawLen]);
        ended := tuples[k].code == CISTPL_END;
        k := k + 1;
      }
      CaptureEnds(raw[..rawLen], tuples, k);
      VisitedUpTo(tuples, CIS_MAX_TUPLES, k);
    }
  }

  /** What has been captured of the first k tuples. */
  ghost predicate Captured(bytes: seq<bv8>, tuples: seq<Tuple>, k: nat) {
    k <= |tuples| && bytes == LaidAll(Kept(tuples[..k], 0))
  }

  lemma CaptureStarts(tuples: seq<Tuple>)
    ensures Captured([], tuples, 0)
  {
  }

  lemma CaptureStep(bytes: seq<bv8>, tuples: seq<Tuple>, k: nat, bytes': seq<bv8>)
    requires k < |tuples| && Captured(bytes, tuples, k)
    requires bytes' == bytes + (if |bytes| + 2 + |tuples[k].data| > CAPTURE_MAX then [] else Laid(tuples[k]))
    ensures Captured(bytes', tuples, k + 1)
  {
    hide Laid, LaidAll, Kept;
    assert tuples[..k + 1] == tuples[..k] + [tuples[k]];
    KeptSnoc(tuples[..k], tuples[k], 0);
  }

  lemma CaptureEnds(bytes: seq<bv8>, tuples: seq<Tuple>, k: nat)
    requires Captured(bytes, tuples, k)
    ensures k <= |tuples| && bytes == LaidAll(Kept(tuples[..k], 0))
  {
  }

  lemma {:induction false} KeptSnoc(tuples: seq<Tuple>, t: Tuple, used: nat)
    ensures var laid := LaidAll(Kept(tuples, used));
            LaidAll(Kept(tuples + [t], used))
            == laid + (if used + |laid| + 2 + |t.data| > CAPTURE_MAX then [] else Laid(t))
    decreases |tuples|
  {
    hide Laid;
    if tuples == [] {
      KeptStep([t], used);
      assert [t][1..] == [] && tuples + [t] == [t];
    } else {
      var rest, x := tuples[1..], tuples[0];
      assert (tuples + [t])[0] == x && (tuples + [t])[1..] == rest + [t];
      KeptStep(tuples, used);
      KeptStep(tuples + [t], used);
      LaidLength(x);
      KeptSnoc(rest, t, if used + 2 + |x.data| > CAPTURE_MAX then used else used + 2 + |x.data|);
    }
  }

  lemma LaidBytes(before: seq<bv8>, t: Tuple, after: seq<bv8>)
    requires |after| == |before| + 2 + |t.data|
    requires forall j :: 0 <= j < |before| ==> after[j] == before[j]
    requires after[|before|] == t.code && after[|before| + 1] == Byte(|t.data|)
    requires forall j :: 0 <= j < |t.data| ==> after[|before| + 2 + j] == t.data[j]
    ensures after == before + Laid(t)
  {
    hide Byte;
  }

  lemma LaidBody(t: Tuple)
    ensures Laid(t) == [t.code, Byte(|t.data|)] + t.data
  {
  }

  lemma LaidLength(t: Tuple)
    ensures |Laid(t)| == 2 + |t.data|
  {
  }

  lemma KeptStep(tuples: seq<Tuple>, used: nat)
    requires tuples != []
    ensures var t := tuples[0];
            LaidAll(Kept(tuples, used)) ==
            if used + 2 + |t.data| > CAPTURE_MAX then LaidAll(Kept(tuples[1..], used))
            else Laid(t) + LaidAll(Kept(tuples[1..], used + 2 + |t.data|))
  {
    hide Laid;
    var t := tuples[0];
    if used + 2 + |t.data| <= CAPTURE_MAX {
      var rest := Kept(tuples[1..], used + 2 + |t.data|);
      assert ([t] + rest)[1..] == rest;
    }
  }

  /** A length byte as a number. */
  function Length(b: bv8): (n: nat)
    ensures n < 0x100
  {
    b as int
  }

  /** What the reader's loop finds in a buffer. */
  function Parsed(raw: seq<bv8>): seq<Tuple>
    decreases |raw|
  {
    if |raw| < 2 then []
    else
      var len := Length(raw[1]);
      if 2 + len > |raw| then [] else [Tuple(raw[0], raw[2..2 + len])] + Parsed(raw[2 + len..])
  }

  /** The loop of cmd_cis. It never looks beyond rawLen. */
  method WalkRaw(raw: array<bv8>, rawLen: nat) returns (tuples: seq<Tuple>, off: nat)
    requires rawLen <= raw.Length
    ensures tuples == Parsed(raw[..rawLen]) && off <= rawLen
    ensures LaidAll(tuples) == raw[..off]
  {
    hide *;
    tuples, off := [], 0;
    ghost var all := raw[..rawLen];
    WalkStarts(all);
    while off + 2 <= rawLen
      invariant off <= rawLen && Walked(all, off, tuples)
    {
      var len := Length(raw[off + 1]);
      if off + 2 + len > rawLen {
        break;
      }
      var t := Tuple(raw[off], raw[off + 2..off + 2 + len]);
      WalkOn(all, off, len, tuples, t);
      tuples := tuples + [t];
      off := off + 2 + len;
    }
    WalkEnds(all, off, tuples);
    assert raw[..off] == all[..off];
  }

  /** The tuples found so far were laid down before off, and the rest comes after. */
  ghost predicate Walked(all: seq<bv8>, off: nat, tuples: seq<Tuple>) {
    && off <= |all| && LaidAll(tuples) == all[..off]
    && tuples + Parsed(all[off..]) == Parsed(all)
  }

  lemma WalkStarts(all: seq<bv8>)
    ensures Walked(all, 0, [])
  {
    assert all[0..] == all;
  }

  lemma WalkOn(all: seq<bv8>, off: nat, len: nat, tuples: seq<Tuple>, t: Tuple)
    requires Walked(all, off, tuples) && off + 2 <= |all| && len == Length(all[off + 1]) && off + 2 + len <= |all|
    requires t == Tuple(all[off], all[off + 2..off + 2 + len])
    ensures Walked(all, off + 2 + len, tuples + [t])
  {
    hide Laid, LaidAll, Parsed, Length;
    WalkStep(all, off, len);
    LaidSnoc(tuples, t);
    assert tuples + ([t] + Parsed(all[off + 2 + len..])) == (tuples + [t]) + Parsed(all[off + 2 + len..]);
  }

  lemma WalkEnds(all: seq<bv8>, off: nat, tuples: seq<Tuple>)
    requires Walked(all, off, tuples) && (off + 2 > |all| || off + 2 + Length(all[off + 1]) > |all|)
    ensures tuples == Parsed(all) && off <= |all| && LaidAll(tuples) == all[..off]
  {
    hide LaidAll, Length;
    assert Parsed(all[off..]) == [];
    assert tuples + [] == tuples;
  }

  /** One turn of the loop, at any offset. */
  lemma WalkStep(all: seq<bv8>, off: nat, len: nat)
    requires off + 2 <= |all| && len == Length(all[off + 1])
    ensures if off + 2 + len > |all| then Parsed(all[off..]) == []
            else
              var t := Tuple(all[off], all[off + 2..off + 2 + len]);
              Parsed(all[off..]) == [t] + Parsed(all[off + 2 + len..]) && all[..off] + Laid(t) == all[..off + 2 + len]
  {
    hide Laid, Parsed, Length;
    ParsedAt(all, off, len);
    if off + 2 + len <= |all| {
      var t := Tuple(all[off], all[off + 2..off + 2 + len]);
      LaidIs(t, all[off], all[off + 1]);
      assert all[..off] + ([all[off], all[off + 1]] + all[off + 2..off + 2 + len]) == all[..off + 2 + len];
    }
  }

  lemma ParsedAt(all: seq<bv8>, off: nat, len: nat)
    requires off + 2 <= |all| && len == Length(all[off + 1])
    ensures Parsed(all[off..]) ==
            if off + 2 + len > |all| then []
            else [Tuple(all[off], all[off + 2..off + 2 + len])] + Parsed(all[off + 2 + len..])
  {
    hide Length;
    var view := all[off..];
    assert view[0] == all[off] && view[1] == all[off + 1];
    if off + 2 + len <= |all| {
      Subslice(all, off, 2, 2 + len);
    }
  }

  lemma Subslice(all: seq<bv8>, off: nat, a: nat, b: nat)
    requires a <= b && off + b <= |all|
    ensures all[off..][a..b] == all[off + a..off + b] && all[off..][b..] == all[off + b..]
  {
  }

  lemma LaidIs(t: Tuple, code: bv8, len: bv8)
    requires t.code == code && Length(len) == |t.data|
    ensures Laid(t) == [code, len] + t.data
  {
    hide Byte;
    ByteBack(len);
    assert Length(len) == len as int;
  }

  lemma {:induction false} LaidSnoc(tuples: seq<Tuple>, t: Tuple)
    ensures LaidAll(tuples + [t]) == LaidAll(tuples) + Laid(t)
    decreases |tuples|
  {
    hide Laid;
    if tuples == [] {
      assert tuples + [t] == [t] && [t][1..] == [];
      assert LaidAll([t]) == Laid(t) + [];
    } else {
      assert (tuples + [t])[1..] == tuples[1..] + [t];
      LaidSnoc(tuples[1..], t);
    }
  }

  /** A tuple is laid down as its code, its length in one byte and its body. Nothing is left out
      exactly when all of it fits the 1024 bytes of the capture, which is never overrun. */
  lemma {:induction false} KeptExactly(tuples: seq<Tuple>, used: nat)
    ensures Kept(tuples, used) == tuples <==> tuples == [] || used + |LaidAll(tuples)| <= 1024
    ensures used <= 1024 ==> used + |LaidAll(Kept(tuples, used))| <= 1024
    decreases |tuples|
  {
    hide Laid;
    if tuples != [] {
      var t := tuples[0];
      LaidLength(t);
      if used + 2 + |t.data| > 1024 {
        KeptExactly(tuples[1..], used);
        KeptAtMost(tuples[1..], used);
      } else {
        var rest := Kept(tuples[1..], used + 2 + |t.data|);
        KeptExactly(tuples[1..], used + 2 + |t.data|);
        assert ([t] + rest)[1..] == rest;
        assert tuples == [t] + tuples[1..];
      }
    }
  }

  lemma {:induction false} KeptAtMost(tuples: seq<Tuple>, used: nat)
    ensures |Kept(tuples, used)| <= |tuples|
    decreases |tuples|
  {
    if tuples != [] {
      KeptAtMost(tuples[1..], used);
      KeptAtMost(tuples[1..], used + 2 + |tuples[0].data|);
    }
  }

  predicate ShortBodies(tuples: seq<Tuple>) {
    forall i :: 0 <= i < |tuples| ==> |tuples[i].data| <= 255
  }

  lemma {:induction false} ReadsBack(tuples: seq<Tuple>)
    requires ShortBodies(tuples)
    ensures Parsed(LaidAll(tuples)) == tuples
    decreases |tuples|
  {
    hide Laid, Parsed;
    if tuples == [] {
      NothingParsed();
    } else {
      var t, rest := tuples[0], LaidAll(tuples[1..]);
      ReadsBack(tuples[1..]);
      FirstReadsBack(t, rest);
      assert tuples == [t] + tuples[1..];
    }
  }

  lemma NothingParsed()
    ensures Parsed([]) == []
  {
  }

  lemma FirstReadsBack(t: Tuple, rest: seq<bv8>)
    requires |t.data| < 0x100
    ensures Parsed(Laid(t) + rest) == [t] + Parsed(rest)
  {
    hide Byte, Length;
    ShortLength(|t.data|);
    var head, raw := [t.code, Byte(|t.data|)], Laid(t) + rest;
    assert raw == head + (t.data + rest);
    assert raw[0] == head[0] && raw[1] == head[1];
    Subslice(raw, 0, 2, 2 + |t.data|);
    assert raw[2..2 + |t.data|] == t.data;
    assert raw[2 + |t.data|..] == rest;
  }

  lemma ShortLength(x: nat)
    requires x < 0x100
    ensures Length(Byte(x)) == x
  {
  }

  lemma {:induction false} ParsedBodiesAreShort(raw: seq<bv8>)
    ensures ShortBodies(Parsed(raw))
    decreases |raw|
  {
    hide Length;
    if |raw| >= 2 && 2 + Length(raw[1]) <= |raw| {
      ParsedBodiesAreShort(raw[2 + Length(raw[1])..]);
    }
  }

  /** The reader recovers the kept tuples, in order, exactly when no kept body is longer than a
      length byte can tell. Card Services may hand over up to 300 bytes. */
  lemma {:induction false} RecoversExactly(tuples: seq<Tuple>)
    ensures Parsed(LaidAll(tuples)) == tuples <==> ShortBodies(tuples)
  {
    if ShortBodies(tuples) {
      ReadsBack(tuples);
    }
    ParsedBodiesAreShort(LaidAll(tuples));
  }

  /** The tuples that a capture holds: of those visited, each one that still fitted. */
  function Held(tuples: seq<Tuple>): seq<Tuple> {
    Kept(Visited(tuples, CIS_MAX_TUPLES), 0)
  }

  /** A capture, then the reader's loop over it: the tuples found are the tuples held if and only
      if every one has a body that fits its length byte, and then the loop ends exactly at the
      end. */
  method CmdCis(tuples: seq<Tuple>) returns (found: seq<Tuple>, off: nat, rawLen: nat)
    ensures found == Held(tuples) <==> ShortBodies(Held(tuples))
    ensures ShortBodies(Held(tuples)) ==> off == rawLen
    ensures off <= rawLen <= 1024
  {
    hide *;
    var cap := new CisCapture();
    CaptureIsBounded(cap);
    var k := cap.CaptureAll(tuples);
    CaptureIsBounded(cap);
    rawLen := cap.rawLen;
    found, off := WalkRaw(cap.raw, rawLen);
    RecoversExactly(Held(tuples));
    HeldIs(tuples);
  }

  lemma HeldIs(tuples: seq<Tuple>)
    ensures Held(tuples) == Kept(Visited(tuples, 64), 0)
  {
  }

  lemma CaptureIsBounded(cap: CisCapture)
    requires cap.Valid()
    ensures cap.raw.Length == 1024 && cap.rawLen <= 1024
  {
  }
}
