/** The Windows CE identifier of a PC Card, src/gpib/pnpid.c: strings and CRC gathered tuple by
    tuple, then rendered into a bounded buffer. */
module PnpId {
  import opened Words
  import opened Crc

  const CISTPL_DEVICE: bv8 := 0x01
  const CISTPL_VERS_1: bv8 := 0x15
  const CISTPL_CONFIG: bv8 := 0x1A
  const CISTPL_CFTABLE_ENTRY: bv8 := 0x1B
  const CISTPL_MANFID: bv8 := 0x20
  const CISTPL_END: bv8 := 0xFF
  const CIS_MAX_TUPLES := 64
  const PNPID_MAX := 128
  const PNPID_MANF_MAX := 115
  const PNPID_PROD_MAX := 64

  const SPACE: bv8 := 0x20
  const COMMA: bv8 := 0x2C
  const DASH: bv8 := 0x2D
  const UNDERSCORE: bv8 := 0x5F

  datatype Tuple = Tuple(code: bv8, data: seq<bv8>)

  /** The tuples of a chain that the walk visits: up to the end tuple, and no more than there is
      room for. */
  function Visited(tuples: seq<Tuple>, room: nat): (v: seq<Tuple>)
    ensures |v| <= room && v <= tuples
    decreases |tuples|
  {
    if tuples == [] || room == 0 then []
    else if tuples[0].code == CISTPL_END then [tuples[0]]
    else [tuples[0]] + Visited(tuples[1..], room - 1)
  }

  lemma {:induction false} VisitedUpTo(tuples: seq<Tuple>, room: nat, k: nat)
    requires k <= |tuples| && k <= room
    requires forall i :: 0 <= i < k - 1 ==> tuples[i].code != 0xFF
    requires k == |tuples| || k == room || (k > 0 && tuples[k - 1].code == 0xFF)
    ensures Visited(tuples, room) == tuples[..k]
    decreases k
  {
    if k > 0 && !(k == 1 && tuples[0].code == CISTPL_END) {
      assert k > 1 ==> tuples[0].code != CISTPL_END;
      VisitedUpTo(tuples[1..], room - 1, k - 1);
    }
  }

  // ---- Fields of VERS_1 ---------------------------------------------------------------

  /** Bytes up to the first NUL, or all of them. */
  function Field(s: seq<bv8>): (f: seq<bv8>)
    ensures |f| <= |s| && f == s[..|f|] && 0 !in f
    ensures |f| < |s| ==> s[|f|] == 0
  {
    if s == [] || s[0] == 0 then [] else [s[0]] + Field(s[1..])
  }

  /** What a byte of a field becomes in the identifier: nothing, or one printable character. */
  function Clean(c: bv8): seq<bv8> {
    if c == SPACE || c == COMMA then [UNDERSCORE]
    else if c <= 0x20 || c >= 0x7F then []
    else [c]
  }

  function Filtered(s: seq<bv8>): seq<bv8> {
    if s == [] then [] else Filtered(s[..|s| - 1]) + Clean(s[|s| - 1])
  }

  /** Character by character: blanks and commas become underscores, control bytes and bytes from
      0x7F up go, and every other character stays. */
  lemma {:induction false} FilteredByCharacter(a: seq<bv8>, b: seq<bv8>)
    ensures Filtered(a + b) == Filtered(a) + Filtered(b)
    ensures forall c: bv8 ::
              Filtered([c]) == if c == 0x20 || c == 0x2C then [0x5F] else if 0x21 <= c <= 0x7E then [c] else []
    decreases |b|
  {
    hide Clean;
    forall c: bv8
      ensures Filtered([c]) == if c == 0x20 || c == 0x2C then [0x5F] else if 0x21 <= c <= 0x7E then [c] else []
    {
      FilteredCharacter(c);
    }
    if b == [] {
      assert a + b == a;
    } else {
      var n := |b| - 1;
      assert (a + b)[..|a| + n] == a + b[..n];
      FilteredByCharacter(a, b[..n]);
      assert Filtered(a) + (Filtered(b[..n]) + Clean(b[n])) == (Filtered(a) + Filtered(b[..n])) + Clean(b[n]);
    }
  }

  lemma FilteredCharacter(c: bv8)
    ensures Filtered([c]) == if c == 0x20 || c == 0x2C then [0x5F] else if 0x21 <= c <= 0x7E then [c] else []
  {
    assert [c][..0] == [];
    assert Filtered([c]) == [] + Clean(c);
  }

  predicate Printable(s: seq<bv8>) {
    forall i :: 0 <= i < |s| ==> 0x21 <= s[i] <= 0x7E && s[i] != COMMA
  }

  lemma {:induction false} FilteredIsPrintable(s: seq<bv8>)
    ensures Printable(Filtered(s))
  {
    if s != [] {
      FilteredIsPrintable(s[..|s| - 1]);
    }
  }

  function Bounded(s: seq<bv8>, cap: nat): seq<bv8>
    requires cap > 0
  {
    if |s| < cap then s else s[..cap - 1]
  }

  /** A field with its NUL, if it has one. */
  function Consumed(s: seq<bv8>): nat {
    if |Field(s)| < |s| then |Field(s)| + 1 else |s|
  }

  lemma {:induction false} FieldPrefix(s: seq<bv8>, i: nat)
    requires i <= |s| && 0 !in s[..i]
    ensures i <= |Field(s)| && (i < |s| && s[i] == 0 ==> |Field(s)| == i) && (i == |s| ==> Field(s) == s)
  {
    if i > 0 {
      assert s[0] == s[..i][0];
      assert s[1..][..i - 1] == s[..i][1..];
      FieldPrefix(s[1..], i - 1);
    }
  }

  /** One more byte of the field is dropped, stored, or left out because the buffer is full. */
  lemma BoundedStep(s: seq<bv8>, i: nat, cap: nat)
    requires i < |s| && cap > 0
    ensures var d, more := Bounded(Filtered(s[..i]), cap), Clean(s[i]);
            Bounded(Filtered(s[..i + 1]), cap) == if |more| == 1 && |d| + 1 < cap then d + more else d
    ensures |Clean(s[i])| <= 1
  {
    hide Clean;
    CleanSize(s[i]);
    assert s[..i + 1][..i] == s[..i];
  }

  lemma CleanSize(c: bv8)
    ensures |Clean(c)| <= 1
  {
  }

  lemma BoundedIsPrintable(s: seq<bv8>, cap: nat)
    requires cap > 0
    ensures Printable(Bounded(Filtered(s), cap)) && |Bounded(Filtered(s), cap)| < cap
  {
    hide Filtered;
    FilteredIsPrintable(s);
  }

  /** copy_filtered: the characters go into a buffer of cap bytes, NUL included. */
  method CopyFiltered(cap: nat, src: seq<bv8>) returns (dst: seq<bv8>, consumed: nat)
    requires cap > 0
    ensures dst == Bounded(Filtered(Field(src)), cap) && consumed == Consumed(src)
    ensures Printable(dst) && |dst| < cap
  {
    hide Filtered, Bounded, Printable;
    dst := [];
    assert src[..0] == [] && Bounded(Filtered([]), cap) == [] by { NothingStored(cap); }
    var i := 0;
    while i < |src| && src[i] != 0
      invariant i <= |src| && 0 !in src[..i]
      invariant dst == Bounded(Filtered(src[..i]), cap)
    {
      var c := src[i];
      BoundedStep(src, i, cap);
      if c == SPACE || c == COMMA {
        c := UNDERSCORE;
      } else if c <= 0x20 || c >= 0x7F {
        i := i + 1;
        continue;
      }
      if |dst| + 1 < cap {
        dst := dst + [c];
      }
      i := i + 1;
    }
    FieldPrefix(src, i);
    assert Field(src) == src[..i];
    BoundedIsPrintable(src[..i], cap);
    consumed := if i < |src| then i + 1 else |src|;
  }

  lemma NothingStored(cap: nat)
    requires cap > 0
    ensures Bounded(Filtered([]), cap) == []
  {
  }

  // ---- The builder --------------------------------------------------------------------

  /** How much of the first VERS_1 tuple counts: version bytes, manufacturer and product. */
  function VersCut(data: seq<bv8>): nat
    requires |data| > 4
  {
    var used := 2 + Consumed(data[2..]);
    if used < |data| then used + Consumed(data[used..]) else used
  }

  function Nuls(s: seq<bv8>): nat {
    if s == [] then 0 else Nuls(s[..|s| - 1]) + if s[|s| - 1] == 0 then 1 else 0
  }

  lemma {:induction false} NulsConcat(a: seq<bv8>, b: seq<bv8>)
    ensures Nuls(a + b) == Nuls(a) + Nuls(b)
    decreases |b|
  {
    if b == [] {
      assert a + b == a;
    } else {
      assert (a + b)[..|a + b| - 1] == a + b[..|b| - 1];
      NulsConcat(a, b[..|b| - 1]);
    }
  }

  lemma {:induction false} NoNuls(s: seq<bv8>)
    requires 0 !in s
    ensures Nuls(s) == 0
    decreases |s|
  {
    if s != [] {
      assert forall x :: x in s[..|s| - 1] ==> x in s;
      NoNuls(s[..|s| - 1]);
    }
  }

  lemma {:induction false} ConsumedNuls(s: seq<bv8>)
    ensures Consumed(s) <= |s|
    ensures if |Field(s)| < |s| then Nuls(s[..Consumed(s)]) == 1 && s[Consumed(s) - 1] == 0
            else Nuls(s[..Consumed(s)]) == 0
  {
    var f := Field(s);
    NoNuls(f);
    if |f| < |s| {
      assert s[..|f| + 1] == f + [0];
      NulsConcat(f, [0]);
      assert Nuls([0]) == 1;
    } else {
      assert s[..|s|] == s == f;
    }
  }

  lemma {:induction false} CutNuls(data: seq<bv8>)
    requires |data| > 4
    ensures var n := VersCut(data);
            && 2 <= n <= |data|
            && Nuls(data[2..n]) <= 2
            && (n < |data| ==> Nuls(data[2..n]) == 2)
            && (Nuls(data[2..n]) == 2 ==> data[n - 1] == 0)
  {
    hide Nuls, Field;
    var s := data[2..];
    ConsumedNuls(s);
    var used := 2 + Consumed(s);
    assert data[2..used] == s[..Consumed(s)];
    if used < |data| {
      var t := data[used..];
      ConsumedNuls(t);
      var n := used + Consumed(t);
      assert data[2..n] == s[..Consumed(s)] + t[..Consumed(t)];
      NulsConcat(s[..Consumed(s)], t[..Consumed(t)]);
      assert Consumed(t) > 0 ==> data[n - 1] == t[Consumed(t) - 1];
    }
  }

  /** The cut is right behind the second NUL after the version bytes, or at the end if there are
      fewer. So the whole body counts exactly when no byte follows a second NUL. */
  lemma {:induction false} VersCutAtSecondNul(data: seq<bv8>)
    requires |data| > 4
    ensures var n := VersCut(data);
            && 2 <= n <= |data|
            && Nuls(data[2..n]) <= 2
            && (n < |data| ==> Nuls(data[2..n]) == 2 && data[n - 1] == 0)
    ensures VersCut(data) == |data| <==>
              Nuls(data[2..]) < 2 || (Nuls(data[2..]) == 2 && data[|data| - 1] == 0)
  {
    hide VersCut, Nuls;
    CutNuls(data);
    var n := VersCut(data);
    assert data[2..] == data[2..n] + data[n..];
    NulsConcat(data[2..n], data[n..]);
    if n == |data| {
      assert data[2..n] == data[2..];
    } else if data[|data| - 1] == 0 {
      LastNul(data[n..]);
    }
  }

  lemma LastNul(s: seq<bv8>)
    requires s != [] && s[|s| - 1] == 0
    ensures Nuls(s) > 0
  {
  }

  /** An ordinary body, with two NULs and a closing 0xFF, is cut before that byte. */
  lemma OrdinaryBodyIsCut()
    ensures VersCut([5, 0, 65, 0, 66, 0, 255]) == 6
  {
    var data: seq<bv8> := [5, 0, 65, 0, 66, 0, 255];
    assert data[2..] == [65, 0, 66, 0, 255];
    assert Field([65, 0, 66, 0, 255]) == [65] by {
      assert [65, 0, 66, 0, 255][1..] == [0, 66, 0, 255];
      assert Field([0, 66, 0, 255]) == [];
    }
    assert data[4..] == [66, 0, 255];
    assert Field([66, 0, 255]) == [66] by {
      assert [66, 0, 255][1..] == [0, 255];
      assert Field([0, 255]) == [];
    }
  }

  /** The bytes of a tuple that enter the CRC, given whether a VERS_1 tuple has been taken. */
  function Body(t: Tuple, haveVers1: bool): seq<bv8> {
    if t.code == CISTPL_VERS_1 then
      if haveVers1 then t.data
      else if |t.data| <= 4 then []
      else if VersCut(t.data) <= |t.data| then t.data[..VersCut(t.data)] else t.data
    else if t.code == CISTPL_DEVICE || t.code == CISTPL_CONFIG || t.code == CISTPL_CFTABLE_ENTRY ||
            t.code == CISTPL_MANFID then t.data
    else []
  }

  predicate TakesVers1(t: Tuple) {
    t.code == CISTPL_VERS_1 && |t.data| > 4
  }

  /** What the CRC of a whole CIS covers, in CIS order. */
  function Bodies(tuples: seq<Tuple>, haveVers1: bool): seq<bv8>
    decreases |tuples|
  {
    if tuples == [] then []
    else Body(tuples[0], haveVers1) + Bodies(tuples[1..], haveVers1 || TakesVers1(tuples[0]))
  }

  /** The strings that a VERS_1 tuple of more than four bytes gives. */
  function Manufacturer(data: seq<bv8>): seq<bv8>
    requires |data| > 4
  {
    Bounded(Filtered(Field(data[2..])), PNPID_MANF_MAX + 1)
  }

  function Product(data: seq<bv8>): seq<bv8>
    requires |data| > 4
  {
    var used := 2 + Consumed(data[2..]);
    if used < |data| then Bounded(Filtered(Field(data[used..])), PNPID_PROD_MAX + 1) else []
  }

  /** Two version bytes, a manufacturer, a NUL, a product, a NUL: the strings are filtered and cut
      to 115 and 64 characters, and the CRC covers everything up to the second NUL. */
  lemma {:induction false} FieldsOfVers1(version: seq<bv8>, m: seq<bv8>, p: seq<bv8>, rest: seq<bv8>)
    requires |version| == 2 && 0 !in m && 0 !in p
    requires |m| + |p| + |rest| > 0
    ensures var data := version + m + [0] + p + [0] + rest;
            && |data| > 4 && VersCut(data) == |m| + |p| + 4
            && Manufacturer(data) == Filtered(m)[..Min(|Filtered(m)|, 115)]
            && Product(data) == Filtered(p)[..Min(|Filtered(p)|, 64)]
  {
    hide Filtered;
    var data := version + m + [0] + p + [0] + rest;
    var after := p + [0] + rest;
    assert data[2..] == m + ([0] + after);
    FieldEnds(m, after);
    assert data[2 + |m| + 1..] == p + ([0] + rest);
    FieldEnds(p, rest);
  }

  lemma FieldEnds(f: seq<bv8>, rest: seq<bv8>)
    requires 0 !in f
    ensures Field(f + ([0] + rest)) == f && Consumed(f + ([0] + rest)) == |f| + 1
  {
    var s := f + ([0] + rest);
    assert s[..|f|] == f && s[|f|] == 0;
    FieldPrefix(s, |f|);
  }

  /** Which tuples enter the CRC: device, configuration, configuration table and manufacturer
      tuples whole, the first long VERS_1 up to its cut and every later one whole, no other. */
  lemma EntersCrc(t: Tuple, haveVers1: bool)
    ensures t.code == 0x01 || t.code == 0x1A || t.code == 0x1B || t.code == 0x20 ==> Body(t, haveVers1) == t.data
    ensures t.code == 0x15 ==>
              Body(t, haveVers1) == if haveVers1 then t.data
                                    else if |t.data| <= 4 then [] else t.data[..Min(VersCut(t.data), |t.data|)]
    ensures t.code !in [0x01, 0x15, 0x1A, 0x1B, 0x20] ==> Body(t, haveVers1) == []
    ensures TakesVers1(t) <==> t.code == 0x15 && |t.data| > 4
  {
    hide VersCut;
    if t.code == 0x15 && |t.data| > 4 {
      VersCutAtSecondNul(t.data);
      assert t.data[..|t.data|] == t.data;
    }
  }

  class PnpidBuilder {
    var crc: bv16
    var manufacturer: seq<bv8>
    var product: seq<bv8>
    var haveVers1: bool

    /** The strings fit their buffers and are fit for a registry key. */
    ghost predicate Valid()
      reads this
    {
      && |manufacturer| <= PNPID_MANF_MAX && |product| <= PNPID_PROD_MAX
      && Printable(manufacturer) && Printable(product)
      && (!haveVers1 ==> manufacturer == [] && product == [])
    }

    /** pnpid_begin */
    constructor ()
      ensures Valid() && crc == 0 && manufacturer == [] && product == [] && !haveVers1
    {
      crc, manufacturer, product, haveVers1 := 0, [], [], false;
    }

    /** add_vers1 */
    method AddVers1(data: seq<bv8>)
      requires Valid() && !haveVers1
      modifies this
      ensures Valid() && haveVers1 == (|data| > 4)
      ensures crc == TableCrc(old(crc), Body(Tuple(CISTPL_VERS_1, data), false))
      ensures |data| > 4 ==>
                manufacturer == Manufacturer(data) && product == Product(data)
    {
      hide TableCrc, Filtered, Field, Bounded, Consumed, Printable;
      if |data| <= 4 {
        TableCrcEmpty(crc);
        return;
      }
      var used, consumed := 2, 0;
      manufacturer, consumed := CopyFiltered(PNPID_MANF_MAX + 1, data[2..]);
      used := used + consumed;
      if used < |data| {
        product, consumed := CopyFiltered(PNPID_PROD_MAX + 1, data[used..]);
        used := used + consumed;
      }
      VersCutAtSecondNul(data);
      crc := PnpidCrc16(crc, data[..if used <= |data| then used else |data|]);
      haveVers1 := true;
    }

    /** pnpid_add_tuple */
    method AddTuple(t: Tuple)
      requires Valid()
      modifies this
      ensures Valid()
      ensures crc == TableCrc(old(crc), Body(t, old(haveVers1)))
      ensures haveVers1 == (old(haveVers1) || TakesVers1(t))
      ensures old(haveVers1) || !TakesVers1(t) ==>
                manufacturer == old(manufacturer) && product == old(product)
      ensures !old(haveVers1) && TakesVers1(t) ==>
                manufacturer == Manufacturer(t.data) && product == Product(t.data)
    {
      hide TableCrc, VersCut, Manufacturer, Product;
      TableCrcEmpty(crc);
      if t.code == CISTPL_VERS_1 {
        if !haveVers1 {
          AddVers1(t.data);
        } else {
          crc := PnpidCrc16(crc, t.data);
        }
      } else if t.code == CISTPL_DEVICE || t.code == CISTPL_CONFIG || t.code == CISTPL_CFTABLE_ENTRY ||
                t.code == CISTPL_MANFID {
        crc := PnpidCrc16(crc, t.data);
      }
    }
  }

  lemma TableCrcEmpty(crc: bv16)
    ensures TableCrc(crc, []) == crc
  {
  }

  lemma {:induction false} BodiesSnoc(tuples: seq<Tuple>, k: nat, have: bool, haveK: bool)
    requires k < |tuples|
    requires haveK == (have || exists i :: 0 <= i < k && TakesVers1(tuples[i]))
    ensures Bodies(tuples[..k + 1], have) == Bodies(tuples[..k], have) + Body(tuples[k], haveK)
    decreases k
  {
    hide Body, TakesVers1;
    var t := tuples[..k + 1];
    if k == 0 {
      assert t[1..] == [];
    } else {
      assert t[1..] == tuples[1..][..k] && tuples[..k][1..] == tuples[1..][..k - 1];
      var have1 := have || TakesVers1(tuples[0]);
      if exists i :: 0 <= i < k && TakesVers1(tuples[i]) {
        var i :| 0 <= i < k && TakesVers1(tuples[i]);
        if i > 0 { assert TakesVers1(tuples[1..][i - 1]); }
      }
      assert forall i :: 0 <= i < k - 1 && TakesVers1(tuples[1..][i]) ==> TakesVers1(tuples[i + 1]);
      BodiesSnoc(tuples[1..], k - 1, have1, haveK);
    }
  }

  /** The first tuple among k that gives the strings. */
  ghost predicate FirstVers1(tuples: seq<Tuple>, k: nat, i: nat) {
    i < k <= |tuples| && TakesVers1(tuples[i]) && forall j :: 0 <= j < i ==> !TakesVers1(tuples[j])
  }

  /** What a builder holds after the first k tuples: the CRC of their selected bodies joined in CIS
      order, and the strings of the first VERS_1 tuple that is long enough to have any. */
  ghost predicate Gathered(crc: bv16, have: bool, manufacturer: seq<bv8>, product: seq<bv8>,
                           tuples: seq<Tuple>, k: nat) {
    && k <= |tuples| && crc == TableCrc(0, Bodies(tuples[..k], false))
    && (have <==> exists i :: 0 <= i < k && TakesVers1(tuples[i]))
    && (forall i: nat :: FirstVers1(tuples, k, i) ==>
          manufacturer == Manufacturer(tuples[i].data) && product == Product(tuples[i].data))
  }

  lemma GatherStarts(tuples: seq<Tuple>, manufacturer: seq<bv8>, product: seq<bv8>)
    ensures Gathered(0, false, manufacturer, product, tuples, 0)
  {
  }

  lemma GatherStep(crc: bv16, have: bool, m: seq<bv8>, p: seq<bv8>, tuples: seq<Tuple>, k: nat,
                   crc': bv16, have': bool, m': seq<bv8>, p': seq<bv8>)
    requires Gathered(crc, have, m, p, tuples, k) && k < |tuples|
    requires crc' == TableCrc(crc, Body(tuples[k], have)) && have' == (have || TakesVers1(tuples[k]))
    requires have || !TakesVers1(tuples[k]) ==> m' == m && p' == p
    requires !have && TakesVers1(tuples[k]) ==>
               m' == Manufacturer(tuples[k].data) && p' == Product(tuples[k].data)
    ensures Gathered(crc', have', m', p', tuples, k + 1)
  {
    hide TableCrc, Body, Bodies, Manufacturer, Product;
    BodiesSnoc(tuples, k, false, have);
    CrcConcat(0, Bodies(tuples[..k], false), Body(tuples[k], have));
    forall i: nat | FirstVers1(tuples, k + 1, i)
      ensures m' == Manufacturer(tuples[i].data) && p' == Product(tuples[i].data)
    {
      if i < k {
        assert FirstVers1(tuples, k, i);
      }
    }
  }

  /** The tuple walk of cis_capture_socket as the builder sees it, over the tuples visited. */
  method Gather(b: PnpidBuilder, tuples: seq<Tuple>) returns (k: nat)
    requires b.Valid() && b.crc == 0 && !b.haveVers1
    modifies b
    ensures k <= |tuples| && tuples[..k] == Visited(tuples, 64)
    ensures b.Valid() && Gathered(b.crc, b.haveVers1, b.manufacturer, b.product, tuples, k)
  {
    hide Gathered, Body, TableCrc, Manufacturer, Product, Printable, Visited;
    GatherStarts(tuples, b.manufacturer, b.product);
    k := 0;
    var ended := false;
    while k < |tuples| && k < CIS_MAX_TUPLES && !ended
      invariant k <= |tuples| && k <= CIS_MAX_TUPLES
      invariant ended ==> k > 0 && tuples[k - 1].code == CISTPL_END
      invariant forall i :: 0 <= i < (if ended then k - 1 else k) ==> tuples[i].code != CISTPL_END
      invariant b.Valid() && Gathered(b.crc, b.haveVers1, b.manufacturer, b.product, tuples, k)
      decreases |tuples| - k
    {
      ghost var crc, have, m, p := b.crc, b.haveVers1, b.manufacturer, b.product;
      b.AddTuple(tuples[k]);
      GatherStep(crc, have, m, p, tuples, k, b.crc, b.haveVers1, b.manufacturer, b.product);
      ended := tuples[k].code == CISTPL_END;
      k := k + 1;
    }
    VisitedUpTo(tuples, CIS_MAX_TUPLES, k);
  }

  // ---- Rendering ----------------------------------------------------------------------

  /** "UNKNOWN_MANUFACTURER" */
  const UNKNOWN_MANUFACTURER: seq<bv8> :=
    [0x55, 0x4E, 0x4B, 0x4E, 0x4F, 0x57, 0x4E, 0x5F,
     0x4D, 0x41, 0x4E, 0x55, 0x46, 0x41, 0x43, 0x54, 0x55, 0x52, 0x45, 0x52]

  function HexDigit(d: bv8): bv8 {
    if d < 10 then 0x30 + d else 0x37 + d
  }

  function Hex4(crc: bv16): seq<bv8> {
    [HexDigit(((crc >> 12) & 15) as bv8), HexDigit(((crc >> 8) & 15) as bv8),
     HexDigit(((crc >> 4) & 15) as bv8), HexDigit((crc & 15) as bv8)]
  }

  function ReadDigit(c: bv8): bv8 {
    if 0x30 <= c <= 0x39 then c - 0x30 else c - 0x37
  }

  /** Four upper-case hex digits, read back. */
  function ReadHex4(s: seq<bv8>): bv16
    requires |s| == 4
  {
    ((ReadDigit(s[0]) as bv16) << 12) | ((ReadDigit(s[1]) as bv16) << 8) |
    ((ReadDigit(s[2]) as bv16) << 4) | (ReadDigit(s[3]) as bv16)
  }

  lemma DigitReadsBack(d: bv8)
    requires d < 16
    ensures ReadDigit(HexDigit(d)) == d
  {
  }

  lemma NibblesJoin(crc: bv16)
    ensures (((((crc >> 12) & 15) as bv8) as bv16) << 12) | (((((crc >> 8) & 15) as bv8) as bv16) << 8) |
            (((((crc >> 4) & 15) as bv8) as bv16) << 4) | (((crc & 15) as bv8) as bv16) == crc
  {
  }

  lemma NibblesAreSmall(crc: bv16)
    ensures ((crc >> 12) & 15) as bv8 < 16 && ((crc >> 8) & 15) as bv8 < 16
    ensures ((crc >> 4) & 15) as bv8 < 16 && (crc & 15) as bv8 < 16
  {
  }

  lemma {:induction false} HexReadsBack(crc: bv16)
    ensures ReadHex4(Hex4(crc)) == crc
  {
    hide HexDigit, ReadDigit;
    var d3, d2 := ((crc >> 12) & 15) as bv8, ((crc >> 8) & 15) as bv8;
    var d1, d0 := ((crc >> 4) & 15) as bv8, (crc & 15) as bv8;
    NibblesAreSmall(crc);
    NibblesJoin(crc);
    DigitReadsBack(d3);
    DigitReadsBack(d2);
    DigitReadsBack(d1);
    DigitReadsBack(d0);
  }

  /** append */
  method Append(out: array<bv8>, cap: nat, n0: nat, s: seq<bv8>) returns (n: nat)
    requires n0 < cap <= out.Length
    modifies out
    ensures n == Min(n0 + |s|, cap - 1)
    ensures out[..n] == old(out[..n0]) + s[..n - n0]
    ensures forall i :: n <= i < out.Length ==> out[i] == old(out[i])
  {
    n := n0;
    var k := 0;
    while k < |s| && n + 1 < cap
      invariant k <= |s| && n == n0 + k < cap
      invariant out[..n] == old(out[..n0]) + s[..k]
      invariant forall i :: n <= i < out.Length ==> out[i] == old(out[i])
    {
      out[n] := s[k];
      n, k := n + 1, k + 1;
      assert out[..n] == out[..n - 1] + [s[k - 1]];
    }
  }

  /** The buffer holds as much of the text as fits before the NUL. */
  ghost predicate Holds(bytes: seq<bv8>, n: nat, text: seq<bv8>, cap: nat) {
    cap > 0 && n == Min(|text|, cap - 1) && n <= |bytes| && bytes[..n] == text[..n]
  }

  /** Appending one more piece of the text. */
  method AppendPiece(out: array<bv8>, cap: nat, n0: nat, ghost text: seq<bv8>, s: seq<bv8>) returns (n: nat)
    requires cap <= out.Length && Holds(out[..], n0, text, cap)
    modifies out
    ensures n0 <= n && Holds(out[..], n, text + s, cap)
    ensures forall i :: n <= i < out.Length ==> out[i] == old(out[i])
  {
    n := Append(out, cap, n0, s);
    assert text[..n0] + s[..n - n0] == (text + s)[..n];
  }

  /** The name part of the identifier. */
  function Name(manufacturer: seq<bv8>, product: seq<bv8>): seq<bv8> {
    if manufacturer == [] then UNKNOWN_MANUFACTURER
    else if product == [] then manufacturer
    else manufacturer + [DASH] + product
  }

  /** The whole identifier, without regard to any buffer. */
  function Identifier(manufacturer: seq<bv8>, product: seq<bv8>, crc: bv16): seq<bv8> {
    Name(manufacturer, product) + [DASH] + Hex4(crc)
  }

  /** Its characters: the strings with a dash between them, or that the manufacturer is unknown, a
      dash, and four upper-case hexadecimal digits. */
  lemma IdentifierText(manufacturer: seq<bv8>, product: seq<bv8>, crc: bv16) returns (digits: seq<bv8>)
    ensures |digits| == 4 && ReadHex4(digits) == crc
    ensures forall i: nat :: i < 4 ==> 0x30 <= digits[i] <= 0x39 || 0x41 <= digits[i] <= 0x46
    ensures Identifier(manufacturer, product, crc)
         == (if manufacturer == [] then [0x55, 0x4E, 0x4B, 0x4E, 0x4F, 0x57, 0x4E, 0x5F, 0x4D, 0x41,
                                         0x4E, 0x55, 0x46, 0x41, 0x43, 0x54, 0x55, 0x52, 0x45, 0x52]
             else manufacturer + (if product == [] then [] else [0x2D] + product)) + [0x2D] + digits
  {
    hide HexDigit, ReadHex4;
    HexReadsBack(crc);
    NibblesAreSmall(crc);
    digits := Hex4(crc);
    HexDigitRange(((crc >> 12) & 15) as bv8);
    HexDigitRange(((crc >> 8) & 15) as bv8);
    HexDigitRange(((crc >> 4) & 15) as bv8);
    HexDigitRange((crc & 15) as bv8);
    assert manufacturer + [0x2D] + product == manufacturer + ([0x2D] + product);
  }

  lemma HexDigitRange(d: bv8)
    requires d < 16
    ensures 0x30 <= HexDigit(d) <= 0x39 || 0x41 <= HexDigit(d) <= 0x46
  {
  }

  method AppendName(out: array<bv8>, cap: nat, manufacturer: seq<bv8>, product: seq<bv8>) returns (n: nat)
    requires 0 < cap <= out.Length
    modifies out
    ensures Holds(out[..], n, Name(manufacturer, product), cap)
    ensures forall i :: n <= i < out.Length ==> out[i] == old(out[i])
  {
    hide Holds;
    assert Holds(out[..], 0, [], cap) by { HoldsNothing(out[..], cap); }
    if manufacturer == [] {
      assert [] + UNKNOWN_MANUFACTURER == UNKNOWN_MANUFACTURER;
      n := AppendPiece(out, cap, 0, [], UNKNOWN_MANUFACTURER);
    } else {
      assert [] + manufacturer == manufacturer;
      n := AppendPiece(out, cap, 0, [], manufacturer);
      if product != [] {
        n := AppendPiece(out, cap, n, manufacturer, [DASH]);
        n := AppendPiece(out, cap, n, manufacturer + [DASH], product);
      }
    }
  }

  lemma HoldsNothing(bytes: seq<bv8>, cap: nat)
    requires cap > 0
    ensures Holds(bytes, 0, [], cap)
  {
  }

  /** pnpid_finish: as much of the identifier as fits before the NUL, and nothing behind it. */
  method PnpidFinish(b: PnpidBuilder, out: array<bv8>, cap: nat) returns (n: nat)
    requires b.Valid() && cap <= out.Length
    modifies out
    ensures cap < 8 ==> n == 0 && out[..] == old(out[..])
    ensures cap >= 8 ==>
              var text := Identifier(b.manufacturer, b.product, b.crc);
              && n == Min(|text|, cap - 1)
              && out[..n] == text[..n] && out[n] == 0
              && forall i :: n < i < out.Length ==> out[i] == old(out[i])
  {
    hide Hex4, Name;
    n := 0;
    if cap < 8 {
      return;
    }
    ghost var name := Name(b.manufacturer, b.product);
    n := AppendName(out, cap, b.manufacturer, b.product);
    n := AppendPiece(out, cap, n, name, [DASH]);
    n := AppendPiece(out, cap, n, name + [DASH], Hex4(b.crc));
    ghost var done := out[..n];
    assert done == out[..][..n];
    out[n] := 0;
    assert out[..n] == done;
  }

  /** The length of the text before the dash and the CRC. */
  function NameLength(manufacturer: seq<bv8>, product: seq<bv8>): nat {
    if manufacturer == [] then 20
    else |manufacturer| + if product != [] then 1 + |product| else 0
  }

  /** The rendered text is the whole identifier, and so ends in a dash and the CRC in hex that
      reads back, exactly when the name leaves room for six more characters. */
  lemma {:induction false} CrcSurvives(manufacturer: seq<bv8>, product: seq<bv8>, crc: bv16, cap: nat)
    requires cap >= 8
    ensures var text := Identifier(manufacturer, product, crc);
            var shown := text[..Min(|text|, cap - 1)];
            && (shown == text <==> NameLength(manufacturer, product) + 6 <= cap)
            && (shown == text ==> |shown| >= 5 && shown[|shown| - 5] == DASH && ReadHex4(shown[|shown| - 4..]) == crc)
  {
    hide Hex4, ReadHex4;
    var text := Identifier(manufacturer, product, crc);
    HexReadsBack(crc);
    HexLength(crc);
    assert text[|text| - 4..] == Hex4(crc);
  }

  lemma HexLength(crc: bv16)
    ensures |Hex4(crc)| == 4
  {
  }

  /** The strings may together outgrow the buffer that the driver keeps for the identifier: the
      longest name loses the CRC, and part of the product, in PNPID_MAX bytes. */
  lemma {:induction false} LongNamesLoseTheCrc(manufacturer: seq<bv8>, product: seq<bv8>, crc: bv16)
    requires |manufacturer| == PNPID_MANF_MAX && |product| == PNPID_PROD_MAX
    ensures var text := Identifier(manufacturer, product, crc);
            && |text| == 185
            && text[..Min(|text|, PNPID_MAX - 1)] == manufacturer + [DASH] + product[..11]
  {
    hide Hex4;
    HexLength(crc);
  }
}
