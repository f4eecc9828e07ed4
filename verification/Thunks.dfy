/** tools/gen_thunks.py: the code generator between GCC's and Microsoft's SH-3 calling
    conventions, and the machine that its output runs on. */
module Thunks {
  import opened Wrappers

  // ---- The machine --------------------------------------------------------------------

  /** Registers, the procedure register, and memory by word address. */
  datatype Machine = Machine(r: seq<int>, pr: int, mem: int -> int)

  const SP := 15

  datatype Instr =
    | StsPush                          // sts.l pr,@-r15
    | LdsPop                           // lds.l @r15+,pr
    | AddImm(imm: int, n: nat)         // add #imm,Rn
    | MovReg(m: nat, n: nat)           // mov Rm,Rn
    | LoadSp(disp: int, n: nat)        // mov.l @(disp,r15),Rn
    | StoreSp(disp: int)               // mov.l r0,@(disp,r15)
    | LoadInd(m: nat, n: nat)          // mov.l @Rm,Rn
    | StoreInd(n: nat)                 // mov.l r0,@Rn
    | LoadPool                         // mov.l label,r0: the word that follows the code
    | Nop
    | JsrR0                            // jsr @r0
    | JmpR0                            // jmp @r0
    | Rts

  const MAX_DISP_LONG := 60
  const HOME_AREA := 16
  const MAX_ARGS := 16
  const MAX_CALL_ARGS := 10

  /** The instruction has an encoding: four bits of displacement in words, eight bits of signed
      immediate, sixteen registers. */
  predicate Encodable(i: Instr) {
    match i
    case AddImm(imm, n) => -128 <= imm <= 127 && n < 16
    case MovReg(m, n) => m < 16 && n < 16
    case LoadSp(disp, n) => 0 <= disp <= MAX_DISP_LONG && disp % 4 == 0 && n < 16
    case StoreSp(disp) => 0 <= disp <= MAX_DISP_LONG && disp % 4 == 0
    case LoadInd(m, n) => m < 16 && n < 16
    case StoreInd(n) => n < 16
    case _ => true
  }

  predicate EncodableCode(code: seq<Instr>) {
    forall i :: 0 <= i < |code| ==> Encodable(code[i])
  }

  predicate Straight(i: Instr) {
    !i.JsrR0? && !i.JmpR0? && !i.Rts?
  }

  function Store(mem: int -> int, a: int, v: int): int -> int {
    x => if x == a then v else mem(x)
  }

  /** One instruction that is no branch. An unaligned access or an instruction without an
      encoding has no result. */
  function Step(i: Instr, m: Machine, pool: int): Option<Machine>
    requires |m.r| == 16
  {
    if !Encodable(i) || !Straight(i) then None
    else
      match i
      case StsPush =>
        var sp := m.r[SP] - 4;
        if sp % 4 != 0 then None else Some(m.(r := m.r[SP := sp], mem := Store(m.mem, sp, m.pr)))
      case LdsPop =>
        if m.r[SP] % 4 != 0 then None else Some(m.(r := m.r[SP := m.r[SP] + 4], pr := m.mem(m.r[SP])))
      case AddImm(imm, n) => Some(m.(r := m.r[n := m.r[n] + imm]))
      case MovReg(s, n) => Some(m.(r := m.r[n := m.r[s]]))
      case LoadSp(disp, n) =>
        if m.r[SP] % 4 != 0 then None else Some(m.(r := m.r[n := m.mem(m.r[SP] + disp)]))
      case StoreSp(disp) =>
        if m.r[SP] % 4 != 0 then None else Some(m.(mem := Store(m.mem, m.r[SP] + disp, m.r[0])))
      case LoadInd(s, n) =>
        if m.r[s] % 4 != 0 then None else Some(m.(r := m.r[n := m.mem(m.r[s])]))
      case StoreInd(n) =>
        if m.r[n] % 4 != 0 then None else Some(m.(mem := Store(m.mem, m.r[n], m.r[0])))
      case LoadPool => Some(m.(r := m.r[0 := pool]))
      case Nop => Some(m)
      case _ => None
  }

  /** A call out of the thunk: where to, and the machine as the callee finds it. */
  datatype Call = Call(target: int, entry: Machine)

  datatype Outcome =
    | Returned(m: Machine, calls: seq<Call>)   // rts, with the return address in PR
    | Jumped(target: int, m: Machine)          // jmp: the target goes on in the thunk's place
    | Faulted

  /** The code around the machine: what any call does, and the pool word after the code. */
  datatype World = World(callee: (int, Machine) -> Machine, pool: int)

  /** Run code that sits at address `at`. A branch first runs the instruction in its delay
      slot, which must not be a branch; jsr leaves the address after the slot in PR. */
  function Run(code: seq<Instr>, at: int, m: Machine, w: World, calls: seq<Call>): Outcome
    requires |m.r| == 16
    decreases |code|
  {
    if code == [] then Faulted
    else if Straight(code[0]) then
      match Step(code[0], m, w.pool)
      case None => Faulted
      case Some(m') => if |m'.r| != 16 then Faulted else Run(code[1..], at + 2, m', w, calls)
    else if |code| < 2 || !Straight(code[1]) then Faulted
    else
      var target := m.r[0];
      var m0 := if code[0].JsrR0? then m.(pr := at + 4) else m;
      match Step(code[1], m0, w.pool)
      case None => Faulted
      case Some(m1) =>
        if |m1.r| != 16 then Faulted
        else if code[0].Rts? then Returned(m1, calls)
        else if code[0].JmpR0? then Jumped(target, m1)
        else
          var m2 := w.callee(target, m1);
          if |m2.r| != 16 then Faulted
          else Run(code[2..], at + 4, m2, w, calls + [Call(target, m1)])
  }

  /** What a callee may do: anything to R0..R7, to PR and to memory, buffers of its caller
      included, but for the one word at `own` above its stack pointer, where the thunk keeps the
      return address; it gives back SP and R8..R14. */
  ghost predicate KeepsRules(before: Machine, after: Machine, own: nat) {
    && |before.r| == 16 && |after.r| == 16
    && after.r[SP] == before.r[SP]
    && (forall i :: 8 <= i < 15 ==> after.r[i] == before.r[i])
    && after.mem(before.r[SP] + own) == before.mem(before.r[SP] + own)
  }

  /** Argument i where GCC code puts it and looks for it. */
  function GccArg(m: Machine, i: nat): int
    requires |m.r| == 16
  {
    if i < 4 then m.r[4 + i] else m.mem(m.r[SP] + 4 * (i - 4))
  }

  /** Argument i where Microsoft code puts it and looks for it. */
  function MsArg(m: Machine, i: nat): int
    requires |m.r| == 16
  {
    if i < 4 then m.r[4 + i] else m.mem(m.r[SP] + HOME_AREA + 4 * (i - 4))
  }

  // ---- The generator ------------------------------------------------------------------

  datatype Result<T> = Ok(value: T) | Error

  function StackWords(nargs: nat): nat {
    if nargs > 4 then nargs - 4 else 0
  }

  function LoadStoreCode(src: nat, dst: nat): seq<Instr> {
    (if src <= MAX_DISP_LONG then [LoadSp(src, 0)] else [MovReg(SP, 1), AddImm(src, 1), LoadInd(1, 0)]) +
    (if dst <= MAX_DISP_LONG then [StoreSp(dst)] else [MovReg(SP, 1), AddImm(dst, 1), StoreInd(1)])
  }

  /** Copies of k words, from src, src + 4, ... to dst, dst + 4, ... */
  function CopyCode(src: nat, dst: nat, k: nat): seq<Instr> {
    if k == 0 then [] else CopyCode(src, dst, k - 1) + LoadStoreCode(src + 4 * (k - 1), dst + 4 * (k - 1))
  }

  function OpenFrame(frame: nat): seq<Instr> {
    [StsPush, AddImm(-(frame as int), SP)]
  }

  function CloseFrame(frame: nat): seq<Instr> {
    [AddImm(frame, SP), LdsPop, Rts, Nop]
  }

  function ImportFrame(nargs: nat): nat {
    HOME_AREA + 4 * StackWords(nargs)
  }

  function ImportCode(nargs: nat): seq<Instr> {
    var frame := ImportFrame(nargs);
    OpenFrame(frame) + CopyCode(frame + 4, HOME_AREA, StackWords(nargs)) +
    ([LoadPool, LoadInd(0, 0), JsrR0, Nop] + CloseFrame(frame))
  }

  function ExportCode(nargs: nat): seq<Instr> {
    var k := StackWords(nargs);
    if k == 0 then [LoadPool, JmpR0, Nop]
    else
      OpenFrame(4 * k) + CopyCode(4 * k + 4 + HOME_AREA, 0, k) + ([LoadPool, JsrR0, Nop] + CloseFrame(4 * k))
  }

  function Shuffle(n: nat, frame: nat): seq<Instr> {
    [MovReg(4, 0), MovReg(5, 4), MovReg(6, 5), MovReg(7, 6)] +
    (if n >= 4 then [LoadSp(frame + 4, 7)] else [])
  }

  function CallCode(n: nat): seq<Instr> {
    var frame := ImportFrame(n);
    OpenFrame(frame) + CopyCode(frame + 8, HOME_AREA, StackWords(n)) +
    (Shuffle(n, frame) + ([JsrR0, Nop] + CloseFrame(frame)))
  }

  /** _load_store */
  method LoadStore(src: nat, dst: nat) returns (out: seq<Instr>)
    ensures out == LoadStoreCode(src, dst)
  {
    out := [];
    if src <= MAX_DISP_LONG {
      out := out + [LoadSp(src, 0)];
    } else {
      out := out + [MovReg(SP, 1)];
      out := out + [AddImm(src, 1)];
      out := out + [LoadInd(1, 0)];
    }
    if dst <= MAX_DISP_LONG {
      out := out + [StoreSp(dst)];
    } else {
      out := out + [MovReg(SP, 1)];
      out := out + [AddImm(dst, 1)];
      out := out + [StoreInd(1)];
    }
  }

  /** The copying loop of all three generators. */
  method Copies(src: nat, dst: nat, k: nat) returns (lines: seq<Instr>)
    ensures lines == CopyCode(src, dst, k)
  {
    lines := [];
    for i := 0 to k
      invariant lines == CopyCode(src, dst, i)
    {
      var more := LoadStore(src + 4 * i, dst + 4 * i);
      lines := lines + more;
    }
  }

  /** import_thunk */
  method ImportThunk(nargs: nat) returns (r: Result<seq<Instr>>)
    ensures r == if nargs >= 32 then Error else Ok(ImportCode(nargs))
  {
    var k := StackWords(nargs);
    var frame := HOME_AREA + 4 * k;
    if frame > 127 {
      return Error;
    }
    var lines := OpenFrame(frame);
    var copies := Copies(frame + 4, HOME_AREA, k);
    lines := lines + copies;
    lines := lines + ([LoadPool, LoadInd(0, 0), JsrR0, Nop] + CloseFrame(frame));
    r := Ok(lines);
  }

  /** export_thunk */
  method ExportThunk(nargs: nat) returns (r: Result<seq<Instr>>)
    ensures r == if nargs >= 36 then Error else Ok(ExportCode(nargs))
  {
    var k := StackWords(nargs);
    if k == 0 {
      return Ok([LoadPool, JmpR0, Nop]);
    }
    var frame := 4 * k;
    if frame > 127 {
      return Error;
    }
    var lines := OpenFrame(frame);
    var copies := Copies(frame + 4 + HOME_AREA, 0, k);
    lines := lines + copies;
    lines := lines + ([LoadPool, JsrR0, Nop] + CloseFrame(frame));
    r := Ok(lines);
  }

  /** call_thunk */
  method CallThunk(n: nat) returns (r: Result<seq<Instr>>)
    ensures r == if n > 10 then Error else Ok(CallCode(n))
  {
    if n > MAX_CALL_ARGS {
      return Error;
    }
    var k := StackWords(n);
    var frame := HOME_AREA + 4 * k;
    var lines := OpenFrame(frame);
    var copies := Copies(frame + 4 + 4, HOME_AREA, k);
    lines := lines + copies;
    var tail := [MovReg(4, 0), MovReg(5, 4), MovReg(6, 5), MovReg(7, 6)];
    if n >= 4 {
      tail := tail + [LoadSp(frame + 4, 7)];
    }
    assert tail == Shuffle(n, frame);
    lines := lines + (tail + ([JsrR0, Nop] + CloseFrame(frame)));
    r := Ok(lines);
  }

  // ---- Straight code ------------------------------------------------------------------

  function Exec(code: seq<Instr>, m: Machine, pool: int): Option<Machine>
    requires |m.r| == 16
    decreases |code|
  {
    if code == [] then Some(m)
    else
      match Step(code[0], m, pool)
      case None => None
      case Some(m') => if |m'.r| != 16 then None else Exec(code[1..], m', pool)
  }

  lemma {:induction false} ExecConcat(a: seq<Instr>, b: seq<Instr>, m: Machine, m': Machine, pool: int)
    requires |m.r| == 16 && Exec(a, m, pool) == Some(m') && |m'.r| == 16
    ensures Exec(a + b, m, pool) == Exec(b, m', pool)
    decreases |a|
  {
    hide Step;
    if a == [] {
      assert a + b == b;
    } else {
      assert (a + b)[0] == a[0] && (a + b)[1..] == a[1..] + b;
      ExecConcat(a[1..], b, Step(a[0], m, pool).value, m', pool);
    }
  }

  /** Running code that begins with a straight block goes on behind the block. */
  lemma {:induction false} RunBlock(block: seq<Instr>, rest: seq<Instr>, at: int, m: Machine, m': Machine,
                                    w: World, calls: seq<Call>)
    requires |m.r| == 16 && Exec(block, m, w.pool) == Some(m') && |m'.r| == 16
    ensures Run(block + rest, at, m, w, calls) == Run(rest, at + 2 * |block|, m', w, calls)
    decreases |block|
  {
    if block == [] {
      assert block + rest == rest;
    } else {
      assert (block + rest)[0] == block[0] && (block + rest)[1..] == block[1..] + rest;
      RunBlock(block[1..], rest, at + 2, Step(block[0], m, w.pool).value, m', w, calls);
    }
  }

  /** m' is m but for R0, R1 and memory. */
  ghost predicate SameFrame(m': Machine, m: Machine) {
    |m.r| == 16 && |m'.r| == 16 && m'.pr == m.pr && forall i :: 2 <= i < 16 ==> m'.r[i] == m.r[i]
  }

  lemma LoadPart(m: Machine, src: nat, pool: int) returns (m': Machine)
    requires |m.r| == 16 && m.r[SP] % 4 == 0 && src % 4 == 0 && src <= 127
    ensures Exec(if src <= MAX_DISP_LONG then [LoadSp(src, 0)] else [MovReg(SP, 1), AddImm(src, 1), LoadInd(1, 0)],
                 m, pool) == Some(m')
    ensures SameFrame(m', m) && m'.mem == m.mem && m'.r[0] == m.mem(m.r[SP] + src)
  {
    if src <= MAX_DISP_LONG {
      m' := Step(LoadSp(src, 0), m, pool).value;
    } else {
      var m1 := Step(MovReg(SP, 1), m, pool).value;
      var m2 := Step(AddImm(src, 1), m1, pool).value;
      m' := Step(LoadInd(1, 0), m2, pool).value;
      var code := [MovReg(SP, 1), AddImm(src, 1), LoadInd(1, 0)];
      assert code[1..] == [AddImm(src, 1), LoadInd(1, 0)] && code[1..][1..] == [LoadInd(1, 0)];
      assert Exec([LoadInd(1, 0)], m2, pool) == Some(m');
      assert Exec([AddImm(src, 1), LoadInd(1, 0)], m1, pool) == Some(m');
    }
  }

  lemma StorePart(m: Machine, dst: nat, pool: int) returns (m': Machine)
    requires |m.r| == 16 && m.r[SP] % 4 == 0 && dst % 4 == 0 && dst <= 127
    ensures Exec(if dst <= MAX_DISP_LONG then [StoreSp(dst)] else [MovReg(SP, 1), AddImm(dst, 1), StoreInd(1)],
                 m, pool) == Some(m')
    ensures SameFrame(m', m) && m'.mem == Store(m.mem, m.r[SP] + dst, m.r[0])
  {
    if dst <= MAX_DISP_LONG {
      m' := Step(StoreSp(dst), m, pool).value;
    } else {
      var m1 := Step(MovReg(SP, 1), m, pool).value;
      var m2 := Step(AddImm(dst, 1), m1, pool).value;
      m' := Step(StoreInd(1), m2, pool).value;
      var code := [MovReg(SP, 1), AddImm(dst, 1), StoreInd(1)];
      assert code[1..] == [AddImm(dst, 1), StoreInd(1)] && code[1..][1..] == [StoreInd(1)];
      assert Exec([StoreInd(1)], m2, pool) == Some(m');
      assert Exec([AddImm(dst, 1), StoreInd(1)], m1, pool) == Some(m');
    }
  }

  lemma LoadStoreRuns(m: Machine, src: nat, dst: nat, pool: int) returns (m': Machine)
    requires |m.r| == 16 && m.r[SP] % 4 == 0 && src % 4 == 0 && src <= 127 && dst % 4 == 0 && dst <= 127
    ensures Exec(LoadStoreCode(src, dst), m, pool) == Some(m')
    ensures SameFrame(m', m) && m'.mem == Store(m.mem, m.r[SP] + dst, m.mem(m.r[SP] + src))
  {
    hide Exec, Step;
    var m1 := LoadPart(m, src, pool);
    m' := StorePart(m1, dst, pool);
    ExecConcat(if src <= MAX_DISP_LONG then [LoadSp(src, 0)] else [MovReg(SP, 1), AddImm(src, 1), LoadInd(1, 0)],
               if dst <= MAX_DISP_LONG then [StoreSp(dst)] else [MovReg(SP, 1), AddImm(dst, 1), StoreInd(1)],
               m, m1, pool);
  }

  /** The words from dst up are those that were from src up; the rest of memory is as it was. */
  ghost predicate Copied(mem': int -> int, mem: int -> int, src: int, dst: int, k: nat) {
    && (forall j :: 0 <= j < k ==> mem'(dst + 4 * j) == mem(src + 4 * j))
    && (forall a :: a < dst || a >= dst + 4 * k ==> mem'(a) == mem(a))
  }

  lemma {:induction false} CopyRuns(m: Machine, src: nat, dst: nat, k: nat, pool: int) returns (m': Machine)
    requires |m.r| == 16 && m.r[SP] % 4 == 0 && src % 4 == 0 && dst % 4 == 0
    requires dst + 4 * k <= src && (k > 0 ==> src + 4 * (k - 1) <= 127)
    ensures Exec(CopyCode(src, dst, k), m, pool) == Some(m')
    ensures SameFrame(m', m) && Copied(m'.mem, m.mem, m.r[SP] + src, m.r[SP] + dst, k)
  {
    hide Step, Exec, LoadStoreCode, Copied, Store;
    if k == 0 {
      m' := m;
      CopyNothing(m, src, dst, pool);
    } else {
      var m1 := CopyRuns(m, src, dst, k - 1, pool);
      m' := LoadStoreRuns(m1, src + 4 * (k - 1), dst + 4 * (k - 1), pool);
      ExecConcat(CopyCode(src, dst, k - 1), LoadStoreCode(src + 4 * (k - 1), dst + 4 * (k - 1)), m, m1, pool);
      CopyExtends(m1.mem, m.mem, m.r[SP] + src, m.r[SP] + dst, k - 1);
    }
  }

  lemma CopyNothing(m: Machine, src: nat, dst: nat, pool: int)
    requires |m.r| == 16
    ensures Exec(CopyCode(src, dst, 0), m, pool) == Some(m)
    ensures Copied(m.mem, m.mem, m.r[SP] + src, m.r[SP] + dst, 0)
  {
  }

  lemma CopyExtends(mem1: int -> int, mem: int -> int, src: int, dst: int, k: nat)
    requires Copied(mem1, mem, src, dst, k) && dst + 4 * (k + 1) <= src
    ensures Copied(Store(mem1, dst + 4 * k, mem1(src + 4 * k)), mem, src, dst, k + 1)
  {
    var mem' := Store(mem1, dst + 4 * k, mem1(src + 4 * k));
    forall j | 0 <= j < k + 1 ensures mem'(dst + 4 * j) == mem(src + 4 * j) {
      assert mem1(src + 4 * k) == mem(src + 4 * k);
      if j < k {
        assert mem'(dst + 4 * j) == mem1(dst + 4 * j);
      }
    }
  }

  // ---- Entering and leaving -----------------------------------------------------------

  lemma OpenRuns(m: Machine, frame: nat, pool: int) returns (m': Machine)
    requires |m.r| == 16 && m.r[SP] % 4 == 0 && frame % 4 == 0 && frame <= 127
    ensures Exec(OpenFrame(frame), m, pool) == Some(m') && |m'.r| == 16
    ensures m'.r == m.r[SP := m.r[SP] - 4 - frame] && m'.pr == m.pr
    ensures m'.mem == Store(m.mem, m.r[SP] - 4, m.pr)
  {
    var m1 := Step(StsPush, m, pool).value;
    m' := Step(AddImm(-(frame as int), SP), m1, pool).value;
    assert OpenFrame(frame)[1..] == [AddImm(-(frame as int), SP)];
    assert Exec([AddImm(-(frame as int), SP)], m1, pool) == Some(m');
  }

  /** Inside the frame, before the call: m was the machine at the entry of the thunk. The k
      words from `from` above the caller's stack pointer now are at dst above ours; the return
      address is saved right under the caller's stack pointer. */
  ghost predicate Inside(m': Machine, m: Machine, frame: nat, from: nat, dst: nat, k: nat) {
    && |m.r| == 16 && |m'.r| == 16
    && m'.r[SP] == m.r[SP] - 4 - frame && m'.r[SP] % 4 == 0
    && (forall i :: 2 <= i < 15 ==> m'.r[i] == m.r[i])
    && m'.mem(m.r[SP] - 4) == m.pr
    && (forall a :: a >= m.r[SP] || a < m'.r[SP] ==> m'.mem(a) == m.mem(a))
    && (forall j :: 0 <= j < k ==> m'.mem(m'.r[SP] + dst + 4 * j) == m.mem(m.r[SP] + from + 4 * j))
  }

  lemma EnterRuns(m: Machine, frame: nat, from: nat, dst: nat, k: nat, pool: int) returns (m': Machine)
    requires |m.r| == 16 && m.r[SP] % 4 == 0
    requires frame % 4 == 0 && from % 4 == 0 && dst % 4 == 0 && frame <= 127
    requires dst + 4 * k <= frame && (k > 0 ==> frame + 4 + from + 4 * (k - 1) <= 127)
    ensures Exec(OpenFrame(frame) + CopyCode(frame + 4 + from, dst, k), m, pool) == Some(m')
    ensures Inside(m', m, frame, from, dst, k)
  {
    hide Exec, CopyCode, OpenFrame, Step;
    var m1 := OpenRuns(m, frame, pool);
    m' := CopyRuns(m1, frame + 4 + from, dst, k, pool);
    ExecConcat(OpenFrame(frame), CopyCode(frame + 4 + from, dst, k), m, m1, pool);
    forall j | 0 <= j < k
      ensures m'.mem(m'.r[SP] + dst + 4 * j) == m.mem(m.r[SP] + from + 4 * j)
    {
      assert m'.mem((m1.r[SP] + dst) + 4 * j) == m1.mem((m1.r[SP] + (frame + 4 + from)) + 4 * j);
    }
  }

  ghost predicate Aligned(m: Machine) {
    |m.r| == 16 && m.r[SP] % 4 == 0
  }

  /** What the caller of a thunk may rely on: SP and R8..R14 are as they were, and control is back
      at the return address. */
  ghost predicate Restored(m': Machine, m: Machine) {
    && |m.r| == 16 && |m'.r| == 16
    && m'.pr == m.pr
    && m'.r[SP] == m.r[SP]
    && (forall i :: 8 <= i < 15 ==> m'.r[i] == m.r[i])
  }

  lemma LeaveRuns(m: Machine, entry: Machine, after: Machine, frame: nat, own: nat,
                  at: int, w: World, calls: seq<Call>) returns (m': Machine)
    requires frame % 4 == 0 && own == frame <= 127 && Aligned(m) && |entry.r| == 16
    requires entry.r[SP] == m.r[SP] - 4 - frame && entry.mem(m.r[SP] - 4) == m.pr
    requires forall i :: 8 <= i < 15 ==> entry.r[i] == m.r[i]
    requires KeepsRules(entry, after, own)
    ensures Run(CloseFrame(frame), at, after, w, calls) == Returned(m', calls)
    ensures Restored(m', m) && m'.r[0] == after.r[0] && m'.mem == after.mem
  {
    var code := CloseFrame(frame);
    var m1 := Step(AddImm(frame, SP), after, w.pool).value;
    m' := Step(LdsPop, m1, w.pool).value;
    assert m1.r[SP] == m.r[SP] - 4;
    assert m1.mem(m.r[SP] - 4) == entry.mem(m.r[SP] - 4) == m.pr;
    assert code[1..] == [LdsPop, Rts, Nop] && code[1..][1..] == [Rts, Nop];
    assert Run([Rts, Nop], at + 4, m', w, calls) == Returned(m', calls);
    assert Run([LdsPop, Rts, Nop], at + 2, m1, w, calls) == Returned(m', calls);
  }

  // ---- The three thunks ---------------------------------------------------------------

  /** Whatever is called keeps the rules, with the return address at `own`. */
  ghost predicate RuleAbiding(w: World, own: nat) {
    forall target: int, x: Machine :: |x.r| == 16 ==> KeepsRules(x, w.callee(target, x), own)
  }

  /** Exactly one call was made, on the caller's memory as it was; control came back, the caller's
      registers are restored, and R0 and memory are what the callee left. So a word of the caller's
      has changed only if the callee changed it. */
  ghost predicate CalledOnce(o: Outcome, m: Machine, w: World) {
    && o.Returned? && |o.calls| == 1
    && Restored(o.m, m)
    && |o.calls[0].entry.r| == 16
    && var after := w.callee(o.calls[0].target, o.calls[0].entry);
       && |after.r| == 16 && o.m.r[0] == after.r[0] && o.m.mem == after.mem
       && (forall a :: a >= m.r[SP] ==> o.calls[0].entry.mem(a) == m.mem(a))
  }

  /** jsr with its delay slot, and the callee. */
  lemma JsrRuns(tail: seq<Instr>, at: int, m: Machine, w: World, own: nat)
    requires |m.r| == 16 && RuleAbiding(w, own)
    ensures var call := Call(m.r[0], m.(pr := at + 4));
            var after := w.callee(call.target, call.entry);
            && KeepsRules(call.entry, after, own)
            && Run([JsrR0, Nop] + tail, at, m, w, []) == Run(tail, at + 4, after, w, [call])
  {
    var code := [JsrR0, Nop] + tail;
    var call := Call(m.r[0], m.(pr := at + 4));
    assert code[0] == JsrR0 && code[1] == Nop && code[2..] == tail;
    assert Step(Nop, call.entry, w.pool) == Some(call.entry);
    assert KeepsRules(call.entry, w.callee(call.target, call.entry), own);
    assert [] + [call] == [call];
  }

  /** From the frame on: call, close the frame, return. */
  lemma CallAndLeave(m: Machine, inside: Machine, now: Machine, frame: nat, from: nat, dst: nat, k: nat,
                     own: nat, at: int, w: World)
    requires frame % 4 == 0 && own == frame <= 127 && RuleAbiding(w, own)
    requires Inside(inside, m, frame, from, dst, k) && |now.r| == 16
    requires now.mem == inside.mem && now.r[SP] == inside.r[SP]
    requires forall i :: 8 <= i < 15 ==> now.r[i] == inside.r[i]
    ensures var o := Run([JsrR0, Nop] + CloseFrame(frame), at, now, w, []);
            CalledOnce(o, m, w) && o.calls == [Call(now.r[0], now.(pr := at + 4))]
  {
    hide Run, CloseFrame;
    JsrRuns(CloseFrame(frame), at, now, w, own);
    var call := Call(now.r[0], now.(pr := at + 4));
    var m' := LeaveRuns(m, call.entry, w.callee(call.target, call.entry), frame, own, at + 4, w, [call]);
  }

  /** What the pool word leads to: the import table entry, read before the call. */
  lemma PoolTail(m: Machine, tail: seq<Instr>, at: int, w: World)
    requires |m.r| == 16 && w.pool % 4 == 0
    ensures Run([LoadPool, LoadInd(0, 0)] + tail, at, m, w, [])
         == Run(tail, at + 4, m.(r := m.r[0 := m.mem(w.pool)]), w, [])
  {
    var m1 := Step(LoadPool, m, w.pool).value;
    var m2 := Step(LoadInd(0, 0), m1, w.pool).value;
    assert m2 == m.(r := m.r[0 := m.mem(w.pool)]);
    assert [LoadPool, LoadInd(0, 0)][1..] == [LoadInd(0, 0)];
    assert Exec([LoadInd(0, 0)], m1, w.pool) == Some(m2);
    RunBlock([LoadPool, LoadInd(0, 0)], tail, at, m, m2, w, []);
  }

  /** Import thunk: a GCC caller, a Microsoft callee reached through the import table. The callee
      may write all of memory but the thunk's saved return address. */
  lemma {:induction false} ImportThunkCorrect(nargs: nat, m: Machine, at: int, w: World)
    requires nargs <= 16 && Aligned(m)
    requires RuleAbiding(w, ImportFrame(nargs))
    requires w.pool % 4 == 0 && (w.pool >= m.r[SP] || w.pool < m.r[SP] - 4 - ImportFrame(nargs))
    ensures var o := Run(ImportCode(nargs), at, m, w, []);
            && CalledOnce(o, m, w)
            && o.calls[0].target == m.mem(w.pool)
            && o.calls[0].entry.r[SP] + ImportFrame(nargs) <= m.r[SP] - 4
            && (forall i :: 0 <= i < nargs ==> MsArg(o.calls[0].entry, i) == GccArg(m, i))
  {
    hide Exec, Step, CopyCode, Run, CloseFrame, OpenFrame, KeepsRules, RuleAbiding, CalledOnce, Restored;
    var k, frame := StackWords(nargs), ImportFrame(nargs);
    var m2 := EnterRuns(m, frame, 0, HOME_AREA, k, w.pool);
    var enter := OpenFrame(frame) + CopyCode(frame + 4, HOME_AREA, k);
    var jsr := [JsrR0, Nop] + CloseFrame(frame);
    ImportSplits(enter, CloseFrame(frame));
    RunBlock(enter, [LoadPool, LoadInd(0, 0)] + jsr, at, m, m2, w, []);
    PoolTail(m2, jsr, at + 2 * |enter|, w);
    var now := m2.(r := m2.r[0 := m2.mem(w.pool)]);
    CallAndLeave(m, m2, now, frame, 0, HOME_AREA, k, frame, at + 2 * |enter| + 4, w);
    ArgsArrive(m, m2, now.(pr := at + 2 * |enter| + 8), nargs);
  }

  lemma ImportSplits(enter: seq<Instr>, close: seq<Instr>)
    ensures enter + ([LoadPool, LoadInd(0, 0), JsrR0, Nop] + close)
         == enter + ([LoadPool, LoadInd(0, 0)] + ([JsrR0, Nop] + close))
  {
  }

  lemma ArgsArrive(m: Machine, inside: Machine, entry: Machine, nargs: nat)
    requires Inside(inside, m, ImportFrame(nargs), 0, HOME_AREA, StackWords(nargs)) && |entry.r| == 16
    requires entry.mem == inside.mem && forall i :: 4 <= i < 16 ==> entry.r[i] == inside.r[i]
    ensures forall i :: 0 <= i < nargs ==> MsArg(entry, i) == GccArg(m, i)
  {
    forall i | 0 <= i < nargs ensures MsArg(entry, i) == GccArg(m, i) {
      if i >= 4 {
        assert inside.mem(inside.r[SP] + HOME_AREA + 4 * (i - 4)) == m.mem(m.r[SP] + 0 + 4 * (i - 4));
      }
    }
  }

  /** Export thunk: a Microsoft caller, a GCC callee. Without stack words it is a jump that
      leaves the machine alone but for R0; otherwise the callee, which may write
      all of memory but the saved return address, finds its arguments where GCC looks for them. */
  lemma {:induction false} ExportThunkCorrect(nargs: nat, m: Machine, at: int, w: World)
    requires nargs <= 16 && Aligned(m) && RuleAbiding(w, 4 * StackWords(nargs))
    ensures var o := Run(ExportCode(nargs), at, m, w, []);
            if nargs <= 4 then
              o == Jumped(w.pool, m.(r := m.r[0 := w.pool]))
              && forall i :: 0 <= i < nargs ==> GccArg(o.m, i) == MsArg(m, i)
            else
              && CalledOnce(o, m, w)
              && o.calls[0].target == w.pool
              && (forall i :: 0 <= i < nargs ==> GccArg(o.calls[0].entry, i) == MsArg(m, i))
  {
    if nargs <= 4 {
      ExportJumps(m, at, w);
    } else {
      ExportCalls(nargs, m, at, w);
    }
  }

  lemma ExportJumps(m: Machine, at: int, w: World)
    requires |m.r| == 16
    ensures Run([LoadPool, JmpR0, Nop], at, m, w, []) == Jumped(w.pool, m.(r := m.r[0 := w.pool]))
  {
    var m1 := m.(r := m.r[0 := w.pool]);
    assert [LoadPool, JmpR0, Nop][1..] == [JmpR0, Nop];
    assert Run([JmpR0, Nop], at + 2, m1, w, []) == Jumped(w.pool, m1);
  }

  lemma {:induction false} ExportCalls(nargs: nat, m: Machine, at: int, w: World)
    requires 4 < nargs <= MAX_ARGS && Aligned(m) && RuleAbiding(w, 4 * StackWords(nargs))
    ensures var o := Run(ExportCode(nargs), at, m, w, []);
            && CalledOnce(o, m, w)
            && o.calls[0].target == w.pool
            && (forall i :: 0 <= i < nargs ==> GccArg(o.calls[0].entry, i) == MsArg(m, i))
  {
    hide Exec, Step, CopyCode, Run, CloseFrame, OpenFrame, KeepsRules, RuleAbiding, CalledOnce, Restored;
    var k := StackWords(nargs);
    var frame := 4 * k;
    var m2 := EnterRuns(m, frame, HOME_AREA, 0, k, w.pool);
    var enter := OpenFrame(frame) + CopyCode(frame + 4 + HOME_AREA, 0, k);
    var jsr := [JsrR0, Nop] + CloseFrame(frame);
    assert [LoadPool, JsrR0, Nop] + CloseFrame(frame) == [LoadPool] + jsr;
    RunBlock(enter, [LoadPool] + jsr, at, m, m2, w, []);
    LoadPoolRuns(m2, jsr, at + 2 * |enter|, w);
    var now := m2.(r := m2.r[0 := w.pool]);
    CallAndLeave(m, m2, now, frame, HOME_AREA, 0, k, frame, at + 2 * |enter| + 2, w);
    var entry := now.(pr := at + 2 * |enter| + 6);
    forall i | 0 <= i < nargs ensures GccArg(entry, i) == MsArg(m, i) {
      if i >= 4 {
        assert m2.mem(m2.r[SP] + 0 + 4 * (i - 4)) == m.mem(m.r[SP] + HOME_AREA + 4 * (i - 4));
      }
    }
  }

  lemma LoadPoolRuns(m: Machine, tail: seq<Instr>, at: int, w: World)
    requires |m.r| == 16
    ensures Run([LoadPool] + tail, at, m, w, []) == Run(tail, at + 2, m.(r := m.r[0 := w.pool]), w, [])
  {
    var m1 := m.(r := m.r[0 := w.pool]);
    assert Step(LoadPool, m, w.pool) == Some(m1);
    RunBlock([LoadPool], tail, at, m, m1, w, []);
  }

  /** The register shuffle of a call thunk: R4 goes to R0 before R5 overwrites it, and so on. */
  lemma ShuffleRuns(m: Machine, n: nat, frame: nat, pool: int) returns (m': Machine)
    requires |m.r| == 16 && m.r[SP] % 4 == 0
    requires n >= 4 ==> frame + 4 <= MAX_DISP_LONG && frame % 4 == 0
    ensures Exec(Shuffle(n, frame), m, pool) == Some(m') && |m'.r| == 16 && m'.mem == m.mem && m'.pr == m.pr
    ensures m'.r[0] == m.r[4] && m'.r[4] == m.r[5] && m'.r[5] == m.r[6] && m'.r[6] == m.r[7]
    ensures n >= 4 ==> m'.r[7] == m.mem(m.r[SP] + frame + 4)
    ensures forall i :: 8 <= i < 16 ==> m'.r[i] == m.r[i]
  {
    var code := [MovReg(4, 0), MovReg(5, 4), MovReg(6, 5), MovReg(7, 6)];
    var m1 := m.(r := m.r[0 := m.r[4]]);
    var m2 := m1.(r := m1.r[4 := m1.r[5]]);
    var m3 := m2.(r := m2.r[5 := m2.r[6]]);
    var m4 := m3.(r := m3.r[6 := m3.r[7]]);
    assert code[1..] == [MovReg(5, 4), MovReg(6, 5), MovReg(7, 6)];
    assert code[1..][1..] == [MovReg(6, 5), MovReg(7, 6)] && code[1..][1..][1..] == [MovReg(7, 6)];
    assert Exec([MovReg(7, 6)], m3, pool) == Some(m4);
    assert Exec([MovReg(6, 5), MovReg(7, 6)], m2, pool) == Some(m4);
    assert Exec([MovReg(5, 4), MovReg(6, 5), MovReg(7, 6)], m1, pool) == Some(m4);
    assert Exec(code, m, pool) == Some(m4);
    if n >= 4 {
      m' := m4.(r := m4.r[7 := m4.mem(m4.r[SP] + frame + 4)]);
      assert Exec([LoadSp(frame + 4, 7)], m4, pool) == Some(m');
      ExecConcat(code, [LoadSp(frame + 4, 7)], m, m4, pool);
    } else {
      m' := m4;
      assert Shuffle(n, frame) == code;
    }
  }

  /** Call thunk: fn and a1..an, where GCC code passes them, become the target and the arguments
      of a Microsoft callee. */
  lemma {:induction false} CallThunkCorrect(n: nat, m: Machine, at: int, w: World)
    requires n <= 10 && Aligned(m) && RuleAbiding(w, ImportFrame(n))
    ensures var o := Run(CallCode(n), at, m, w, []);
            && CalledOnce(o, m, w)
            && o.calls[0].target == GccArg(m, 0)
            && o.calls[0].entry.r[SP] + ImportFrame(n) <= m.r[SP] - 4
            && (forall i :: 0 <= i < n ==> MsArg(o.calls[0].entry, i) == GccArg(m, i + 1))
  {
    hide Exec, Step, CopyCode, Run, CloseFrame, OpenFrame, KeepsRules, RuleAbiding, CalledOnce, Restored, Shuffle;
    var k, frame := StackWords(n), ImportFrame(n);
    var m2 := EnterRuns(m, frame, 4, HOME_AREA, k, w.pool);
    var enter := OpenFrame(frame) + CopyCode(frame + 8, HOME_AREA, k);
    var jsr := [JsrR0, Nop] + CloseFrame(frame);
    RunBlock(enter, Shuffle(n, frame) + jsr, at, m, m2, w, []);
    var now := ShuffleRuns(m2, n, frame, w.pool);
    RunBlock(Shuffle(n, frame), jsr, at + 2 * |enter|, m2, now, w, []);
    var here := at + 2 * |enter| + 2 * |Shuffle(n, frame)|;
    CallAndLeave(m, m2, now, frame, 4, HOME_AREA, k, frame, here, w);
    CallArgsArrive(m, m2, now.(pr := here + 4), n);
  }

  lemma CallArgsArrive(m: Machine, inside: Machine, entry: Machine, n: nat)
    requires Inside(inside, m, ImportFrame(n), 4, HOME_AREA, StackWords(n)) && |entry.r| == 16
    requires entry.mem == inside.mem && entry.r[SP] == inside.r[SP]
    requires entry.r[4] == inside.r[5] && entry.r[5] == inside.r[6] && entry.r[6] == inside.r[7]
    requires n >= 4 ==> entry.r[7] == inside.mem(inside.r[SP] + ImportFrame(n) + 4)
    ensures forall i :: 0 <= i < n ==> MsArg(entry, i) == GccArg(m, i + 1)
  {
    forall i | 0 <= i < n ensures MsArg(entry, i) == GccArg(m, i + 1) {
      if i >= 4 {
        assert inside.mem(inside.r[SP] + HOME_AREA + 4 * (i - 4)) == m.mem(m.r[SP] + 4 + 4 * (i - 4));
      } else if i == 3 {
        assert inside.mem(m.r[SP]) == m.mem(m.r[SP]);
      }
    }
  }

  // ---- Encodability -------------------------------------------------------------------

  lemma EncodableConcat(a: seq<Instr>, b: seq<Instr>)
    ensures EncodableCode(a + b) <==> EncodableCode(a) && EncodableCode(b)
  {
    if EncodableCode(a + b) {
      forall i | 0 <= i < |a| ensures Encodable(a[i]) { assert Encodable((a + b)[i]); }
      forall i | 0 <= i < |b| ensures Encodable(b[i]) { assert Encodable((a + b)[|a| + i]); }
    }
  }

  lemma LoadStoreEncodes(src: nat, dst: nat)
    requires src % 4 == 0 && dst % 4 == 0
    ensures EncodableCode(LoadStoreCode(src, dst)) <==> src <= 127 && dst <= 127
  {
    var load := if src <= MAX_DISP_LONG then [LoadSp(src, 0)] else [MovReg(SP, 1), AddImm(src, 1), LoadInd(1, 0)];
    var store := if dst <= MAX_DISP_LONG then [StoreSp(dst)] else [MovReg(SP, 1), AddImm(dst, 1), StoreInd(1)];
    EncodableConcat(load, store);
    assert src > MAX_DISP_LONG ==> (Encodable(load[1]) <==> src <= 127);
    assert dst > MAX_DISP_LONG ==> (Encodable(store[1]) <==> dst <= 127);
  }

  /** Copies encode exactly when the last of them reaches no further than an immediate does. */
  lemma {:induction false} CopiesEncode(src: nat, dst: nat, k: nat)
    requires src % 4 == 0 && dst % 4 == 0 && dst <= src
    ensures EncodableCode(CopyCode(src, dst, k)) <==> (k > 0 ==> src + 4 * (k - 1) <= 127)
  {
    hide LoadStoreCode, EncodableCode;
    if k > 0 {
      CopiesEncode(src, dst, k - 1);
      EncodableConcat(CopyCode(src, dst, k - 1), LoadStoreCode(src + 4 * (k - 1), dst + 4 * (k - 1)));
      LoadStoreEncodes(src + 4 * (k - 1), dst + 4 * (k - 1));
    } else {
      NothingEncodes();
    }
  }

  lemma NothingEncodes()
    ensures EncodableCode([])
  {
  }

  /** The generator's own guard is a frame of at most 127 bytes, but what decides is how far the
      copies reach. An import thunk has an encoding exactly for up to 17 argument words, within
      which MAX_ARGS stays; from 18 to 31 words the guard lets it through all the same. */
  lemma {:induction false} ImportEncodes(nargs: nat)
    ensures EncodableCode(ImportCode(nargs)) <==> nargs <= 17
  {
    hide EncodableCode, CopyCode;
    var k, frame := StackWords(nargs), ImportFrame(nargs);
    var tail := [LoadPool, LoadInd(0, 0), JsrR0, Nop] + CloseFrame(frame);
    EncodableConcat(OpenFrame(frame) + CopyCode(frame + 4, HOME_AREA, k), tail);
    EncodableConcat(OpenFrame(frame), CopyCode(frame + 4, HOME_AREA, k));
    EncodableConcat([LoadPool, LoadInd(0, 0), JsrR0, Nop], CloseFrame(frame));
    CopiesEncode(frame + 4, HOME_AREA, k);
    FramesEncode(frame);
    NoOperands();
  }

  lemma FramesEncode(frame: nat)
    ensures EncodableCode(OpenFrame(frame)) <==> frame <= 128
    ensures EncodableCode(CloseFrame(frame)) <==> frame <= 127
  {
    assert Encodable(OpenFrame(frame)[1]) <==> frame <= 128;
    assert Encodable(CloseFrame(frame)[0]) <==> frame <= 127;
  }

  lemma NoOperands()
    ensures EncodableCode([LoadPool, LoadInd(0, 0), JsrR0, Nop])
    ensures EncodableCode([LoadPool, JsrR0, Nop]) && EncodableCode([LoadPool, JmpR0, Nop])
  {
  }

  /** The same bound for export thunks, with a guard that passes up to 35 words. */
  lemma {:induction false} ExportEncodes(nargs: nat)
    ensures EncodableCode(ExportCode(nargs)) <==> nargs <= 17
  {
    hide EncodableCode, CopyCode;
    var k := StackWords(nargs);
    NoOperands();
    if k > 0 {
      var tail := [LoadPool, JsrR0, Nop] + CloseFrame(4 * k);
      EncodableConcat(OpenFrame(4 * k) + CopyCode(4 * k + 4 + HOME_AREA, 0, k), tail);
      EncodableConcat(OpenFrame(4 * k), CopyCode(4 * k + 4 + HOME_AREA, 0, k));
      EncodableConcat([LoadPool, JsrR0, Nop], CloseFrame(4 * k));
      CopiesEncode(4 * k + 4 + HOME_AREA, 0, k);
      FramesEncode(4 * k);
    }
  }

  /** A call thunk has an encoding exactly for up to 14 arguments: the load of a4 takes a
      displacement, which reaches less far than an immediate. MAX_CALL_ARGS stays within. */
  lemma {:induction false} CallEncodes(n: nat)
    ensures EncodableCode(CallCode(n)) <==> n <= 14
  {
    hide EncodableCode, CopyCode, Shuffle;
    var k, frame := StackWords(n), ImportFrame(n);
    EncodableConcat(OpenFrame(frame) + CopyCode(frame + 8, HOME_AREA, k),
                    Shuffle(n, frame) + ([JsrR0, Nop] + CloseFrame(frame)));
    EncodableConcat(OpenFrame(frame), CopyCode(frame + 8, HOME_AREA, k));
    EncodableConcat(Shuffle(n, frame), [JsrR0, Nop] + CloseFrame(frame));
    EncodableConcat([JsrR0, Nop], CloseFrame(frame));
    CopiesEncode(frame + 8, HOME_AREA, k);
    FramesEncode(frame);
    ShuffleEncodes(n, frame);
  }

  lemma ShuffleEncodes(n: nat, frame: nat)
    requires frame % 4 == 0
    ensures EncodableCode(Shuffle(n, frame)) <==> (n >= 4 ==> frame + 4 <= MAX_DISP_LONG)
    ensures EncodableCode([JsrR0, Nop])
  {
    if n >= 4 {
      assert Encodable(Shuffle(n, frame)[4]) <==> frame + 4 <= MAX_DISP_LONG;
    }
  }
}
