/** The line protocol of the TCP gateway: the byte loop of serve_client and the dispatch of
    handle_line in src/gpibsrv/gpibsrv.c, with the client's escape in tools/tds340.py. */
module Gateway {
  import opened Words

  const LINE_MAX := 1024
  const RECV_MAX := 256
  const LF: bv8 := 0x0A
  const CR: bv8 := 0x0D
  const ESC: bv8 := 0x1B
  const PLUS: bv8 := 0x2B

  // ---- The byte loop ------------------------------------------------------------------

  datatype LineState = LineState(line: seq<bv8>, escaped: bool)

  const FRESH := LineState([], false)

  function Stored(line: seq<bv8>, c: bv8): seq<bv8> {
    if |line| < LINE_MAX then line + [c] else line
  }

  function Next(st: LineState, c: bv8): LineState {
    if st.escaped then LineState(Stored(st.line, c), false)
    else if c == ESC then LineState(st.line, true)
    else if c == LF || c == CR then FRESH
    else LineState(Stored(st.line, c), false)
  }

  /** The line that a byte completes, if any. */
  function Completed(st: LineState, c: bv8): seq<seq<bv8>> {
    if !st.escaped && (c == LF || c == CR) && st.line != [] then [st.line] else []
  }

  /** The state after a stream of bytes. */
  function After(st: LineState, s: seq<bv8>): LineState
    decreases |s|
  {
    if s == [] then st else After(Next(st, s[0]), s[1..])
  }

  /** The lines that a stream of bytes completes. */
  function Lines(st: LineState, s: seq<bv8>): seq<seq<bv8>>
    decreases |s|
  {
    if s == [] then [] else Completed(st, s[0]) + Lines(Next(st, s[0]), s[1..])
  }

  lemma {:induction false} LinesConcat(st: LineState, a: seq<bv8>, b: seq<bv8>)
    ensures After(st, a + b) == After(After(st, a), b)
    ensures Lines(st, a + b) == Lines(st, a) + Lines(After(st, a), b)
    decreases |a|
  {
    hide Next, Completed;
    if a == [] {
      assert a + b == b;
      assert [] + Lines(st, b) == Lines(st, b);
    } else {
      assert (a + b)[0] == a[0] && (a + b)[1..] == a[1..] + b;
      var c, rest := Completed(st, a[0]), Next(st, a[0]);
      LinesConcat(rest, a[1..], b);
      assert c + (Lines(rest, a[1..]) + Lines(After(rest, a[1..]), b))
          == (c + Lines(rest, a[1..])) + Lines(After(rest, a[1..]), b);
    }
  }

  // ---- Dispatch -----------------------------------------------------------------------

  datatype Action = Command(text: seq<bv8>) | Data(text: seq<bv8>) | Ignored

  predicate IsCommand(line: seq<bv8>) {
    |line| >= 2 && line[0] == PLUS && line[1] == PLUS
  }

  /** handle_line: escapes are gone by now, so an escaped plus sign counts like any other. */
  function Dispatch(line: seq<bv8>): Action {
    if IsCommand(line) then Command(line[2..]) else if line != [] then Data(line) else Ignored
  }

  function Actions(lines: seq<seq<bv8>>): seq<Action> {
    seq(|lines|, i requires 0 <= i < |lines| => Dispatch(lines[i]))
  }

  /** starts_with, on a command that ends at its first NUL. */
  predicate StartsWith(text: seq<bv8>, word: seq<bv8>) {
    && |word| <= |text| && text[..|word|] == word
    && (|text| == |word| || text[|word|] == 0 || text[|word|] == 0x20)
  }

  /** ++quit */
  predicate IsQuit(line: seq<bv8>) {
    IsCommand(line) && StartsWith(line[2..], [0x71, 0x75, 0x69, 0x74])
  }

  predicate AnyQuit(lines: seq<seq<bv8>>) {
    exists i :: 0 <= i < |lines| && IsQuit(lines[i])
  }

  /** After i bytes of a chunk: the state, the lines completed, and what is to come. */
  ghost predicate Looped(st0: LineState, chunk: seq<bv8>, i: nat, st: LineState, done: seq<seq<bv8>>) {
    && i <= |chunk| && After(st, chunk[i..]) == After(st0, chunk)
    && done + Lines(st, chunk[i..]) == Lines(st0, chunk)
  }

  lemma LoopStarts(st0: LineState, chunk: seq<bv8>)
    ensures Looped(st0, chunk, 0, st0, [])
  {
    assert chunk[0..] == chunk;
  }

  lemma LoopStep(st0: LineState, chunk: seq<bv8>, i: nat, st: LineState, done: seq<seq<bv8>>)
    requires i < |chunk| && Looped(st0, chunk, i, st, done)
    ensures Looped(st0, chunk, i + 1, Next(st, chunk[i]), done + Completed(st, chunk[i]))
  {
    hide Next, Completed;
    assert chunk[i..][0] == chunk[i] && chunk[i..][1..] == chunk[i + 1..];
    var more, rest := Completed(st, chunk[i]), Lines(Next(st, chunk[i]), chunk[i + 1..]);
    assert (done + more) + rest == done + (more + rest);
  }

  lemma LoopEnds(st0: LineState, chunk: seq<bv8>, st: LineState, done: seq<seq<bv8>>)
    requires Looped(st0, chunk, |chunk|, st, done)
    ensures st == After(st0, chunk) && done == Lines(st0, chunk)
  {
    assert done + [] == done;
  }

  // ---- Serving a client ---------------------------------------------------------------

  class Server {
    var stop: bool
    var requests: nat
    var handled: seq<seq<bv8>>   // the lines that handle_line was called with
    var actions: seq<Action>     // what it did with each

    ghost predicate Valid()
      reads this
    {
      actions == Actions(handled)
    }

    constructor ()
      ensures Valid() && !stop && requests == 0 && handled == []
    {
      stop, requests, handled, actions := false, 0, [], [];
    }

    /** handle_line, up to what the commands do to instruments and settings. */
    method HandleLine(line: seq<bv8>)
      modifies this
      ensures handled == old(handled) + [line] && actions == old(actions) + [Dispatch(line)]
      ensures old(Valid()) ==> Valid()
      ensures requests == old(requests) + 1
      ensures stop == (old(stop) || IsQuit(line))
      ensures var command := |line| >= 2 && line[0] == 0x2B && line[1] == 0x2B;
              && actions[|actions| - 1]
                 == (if command then Command(line[2..]) else if line != [] then Data(line) else Ignored)
              && (stop <==> old(stop) || (&& |line| >= 6 && line[..6] == [0x2B, 0x2B, 0x71, 0x75, 0x69, 0x74]
                                          && (|line| == 6 || line[6] == 0 || line[6] == 0x20)))
    {
      assert |line| >= 6 ==> line[..6] == line[..2] + line[2..6] && line[2..][..4] == line[2..6];
      requests, handled := requests + 1, handled + [line];
      if |line| >= 2 && line[0] == PLUS && line[1] == PLUS {
        var text := line[2..];
        actions := actions + [Command(text)];
        if StartsWith(text, [0x71, 0x75, 0x69, 0x74]) {
          stop := true;
        }
      } else if |line| > 0 {
        actions := actions + [Data(line)];
      } else {
        actions := actions + [Ignored];
      }
    }

    /** The loop over one received chunk. */
    method Chunk(chunk: seq<bv8>, st0: LineState) returns (st: LineState)
      requires Valid()
      modifies this
      ensures Valid()
      ensures st == After(st0, chunk)
      ensures handled == old(handled) + Lines(st0, chunk)
      ensures stop == (old(stop) || AnyQuit(Lines(st0, chunk)))
      ensures requests == old(requests) + |Lines(st0, chunk)|
    {
      hide IsQuit, AnyQuit, Dispatch, Actions, Looped, Lines, After;
      st := st0;
      NoLinesNoQuit();
      ghost var done: seq<seq<bv8>> := [];
      LoopStarts(st0, chunk);
      for i := 0 to |chunk|
        invariant Valid() && Looped(st0, chunk, i, st, done)
        invariant handled == old(handled) + done && requests == old(requests) + |done|
        invariant stop == (old(stop) || AnyQuit(done))
      {
        var c := chunk[i];
        ghost var more := Completed(st, c);
        LoopStep(st0, chunk, i, st, done);
        QuitConcat(done, more);
        NoLinesNoQuit();
        OneQuit(st.line);
        if st.escaped {
          st := LineState(if |st.line| < LINE_MAX then st.line + [c] else st.line, false);
        } else if c == ESC {
          st := st.(escaped := true);
        } else if c == LF || c == CR {
          if |st.line| > 0 {
            HandleLine(st.line);
          }
          st := st.(line := []);
        } else if |st.line| < LINE_MAX {
          st := st.(line := st.line + [c]);
        }
        done := done + more;
      }
      LoopEnds(st0, chunk, st, done);
    }

    /** serve_client over what the socket delivers: chunk after chunk until the stream ends or the
        server is asked to stop, which it looks at between chunks only. */
    method ServeClient(chunks: seq<seq<bv8>>)
      requires Valid()
      modifies this
      ensures Valid()
      ensures handled == old(handled) + ServedFrom(old(stop), chunks)
      ensures requests - |handled| == old(requests - |handled|)
    {
      hide *;
      var st := FRESH;
      ghost var before := handled;
      ServedFromIs(stop, chunks);
      assert chunks[0..] == chunks && handled + Served(st, chunks) == before + Served(st, chunks);
      for k := 0 to |chunks|
        invariant Valid() && requests - |handled| == old(requests - |handled|)
        invariant k == 0 ==> stop == old(stop) && handled == before && st == FRESH
        invariant k > 0 ==> !stop && !old(stop)
        invariant !old(stop) ==> handled + Served(st, chunks[k..]) == before + Served(FRESH, chunks)
      {
        ServedStep(st, chunks, k);
        ghost var was, lines, rest := handled, Lines(st, chunks[k]), chunks[k + 1..];
        if chunks[k] == [] {
          assert handled + [] == handled && before + [] == before;
          return;
        }
        st := Chunk(chunks[k], st);
        assert was + (lines + Served(st, rest)) == handled + Served(st, rest);
        if stop {
          return;
        }
      }
      ServedNothing(st, chunks[|chunks|..]);
      assert handled + [] == handled && before + [] == before;
    }
  }

  /** The lines that serve_client handles: those of one chunk if the server has been asked to stop
      before the client came. */
  function ServedFrom(stop: bool, chunks: seq<seq<bv8>>): seq<seq<bv8>> {
    if !stop then Served(FRESH, chunks) else if chunks == [] then [] else Lines(FRESH, chunks[0])
  }

  lemma ServedFromIs(stop: bool, chunks: seq<seq<bv8>>)
    ensures !stop ==> ServedFrom(stop, chunks) == Served(FRESH, chunks)
    ensures stop ==> ServedFrom(stop, chunks) == if chunks == [] then [] else Lines(FRESH, chunks[0])
    ensures chunks != [] && chunks[0] == [] ==> Lines(FRESH, chunks[0]) == [] && Served(FRESH, chunks) == []
  {
  }

  lemma ServedStep(st: LineState, chunks: seq<seq<bv8>>, k: nat)
    requires k < |chunks|
    ensures Served(st, chunks[k..]) ==
            if chunks[k] == [] then []
            else if AnyQuit(Lines(st, chunks[k])) then Lines(st, chunks[k])
            else Lines(st, chunks[k]) + Served(After(st, chunks[k]), chunks[k + 1..])
  {
    hide AnyQuit, Lines, After;
    assert chunks[k..][0] == chunks[k] && chunks[k..][1..] == chunks[k + 1..];
  }

  lemma ServedNothing(st: LineState, chunks: seq<seq<bv8>>)
    ensures chunks == [] ==> Served(st, chunks) == []
  {
  }

  lemma OneQuit(line: seq<bv8>)
    ensures AnyQuit([line]) == IsQuit(line)
  {
    hide IsQuit;
    assert [line][0] == line;
  }

  lemma QuitConcat(a: seq<seq<bv8>>, b: seq<seq<bv8>>)
    ensures AnyQuit(a + b) == (AnyQuit(a) || AnyQuit(b))
  {
    hide IsQuit;
    if AnyQuit(a) {
      var i :| 0 <= i < |a| && IsQuit(a[i]);
      assert IsQuit((a + b)[i]);
    }
    if AnyQuit(b) {
      var i :| 0 <= i < |b| && IsQuit(b[i]);
      assert IsQuit((a + b)[|a| + i]);
    }
  }

  lemma NoLinesNoQuit()
    ensures !AnyQuit([])
  {
  }

  /** The lines that serve_client handles. An empty chunk is the end of the stream. */
  function Served(st: LineState, chunks: seq<seq<bv8>>): seq<seq<bv8>>
    decreases |chunks|
  {
    if chunks == [] || chunks[0] == [] then []
    else
      var lines := Lines(st, chunks[0]);
      if AnyQuit(lines) then lines else lines + Served(After(st, chunks[0]), chunks[1..])
  }

  // ---- Chunk boundaries ---------------------------------------------------------------

  function Joined(chunks: seq<seq<bv8>>): seq<bv8>
    decreases |chunks|
  {
    if chunks == [] then [] else chunks[0] + Joined(chunks[1..])
  }

  /** A way for a stream to arrive: no chunk is empty or larger than the receive buffer. */
  predicate Arrives(chunks: seq<seq<bv8>>, s: seq<bv8>) {
    Joined(chunks) == s && forall i :: 0 <= i < |chunks| ==> 0 < |chunks[i]| <= RECV_MAX
  }

  /** How many bytes it takes to complete the first line that asks the server to stop; all of
      them if there is no such line. */
  function UntilQuit(st: LineState, s: seq<bv8>): (p: nat)
    ensures p <= |s|
    decreases |s|
  {
    if s == [] then 0
    else if AnyQuit(Completed(st, s[0])) then 1
    else 1 + UntilQuit(Next(st, s[0]), s[1..])
  }

  lemma {:induction false} UntilQuitConcat(st: LineState, a: seq<bv8>, b: seq<bv8>)
    ensures UntilQuit(st, a + b) ==
            if AnyQuit(Lines(st, a)) then UntilQuit(st, a) else |a| + UntilQuit(After(st, a), b)
    ensures !AnyQuit(Lines(st, a)) ==> UntilQuit(st, a) == |a|
    ensures AnyQuit(Lines(st, a)) ==> UntilQuit(st, a) >= 1
    decreases |a|
  {
    hide Next, Completed, AnyQuit;
    NoLinesNoQuit();
    if a == [] {
      assert a + b == b;
    } else {
      assert (a + b)[0] == a[0] && (a + b)[1..] == a[1..] + b;
      UntilQuitConcat(Next(st, a[0]), a[1..], b);
      QuitConcat(Completed(st, a[0]), Lines(Next(st, a[0]), a[1..]));
    }
  }

  /** Whatever the chunks, what is handled are the lines of the stream up to some byte: the last
      one, or one less than a receive buffer behind the end of the first quit line. */
  lemma {:induction false} ServedIsCut(st: LineState, chunks: seq<seq<bv8>>, s: seq<bv8>) returns (e: nat)
    requires Arrives(chunks, s)
    ensures UntilQuit(st, s) <= e <= |s| && Served(st, chunks) == Lines(st, s[..e])
    ensures e < UntilQuit(st, s) + RECV_MAX && (!AnyQuit(Lines(st, s)) ==> e == |s|)
    decreases |chunks|
  {
    hide AnyQuit, Lines, After, UntilQuit;
    if chunks == [] {
      e := 0;
      NoLines(st);
    } else {
      var c, rest := chunks[0], chunks[1..];
      var t := Joined(rest);
      UntilQuitConcat(st, c, t);
      LinesConcat(st, c, t);
      QuitConcat(Lines(st, c), Lines(After(st, c), t));
      if AnyQuit(Lines(st, c)) {
        e := |c|;
        assert s[..e] == c;
      } else {
        var e' := ServedIsCut(After(st, c), rest, t);
        e := |c| + e';
        assert s[..e] == c + t[..e'];
        LinesConcat(st, c, t[..e']);
      }
    }
  }

  lemma NoLines(st: LineState)
    ensures Lines(st, []) == [] && UntilQuit(st, []) == 0 && After(st, []) == st
  {
  }

  /** Every byte by itself. */
  function Singles(s: seq<bv8>): seq<seq<bv8>> {
    seq(|s|, i requires 0 <= i < |s| => [s[i]])
  }

  lemma {:induction false} SinglesArrive(s: seq<bv8>)
    ensures Arrives(Singles(s), s)
    decreases |s|
  {
    if s != [] {
      assert Singles(s)[1..] == Singles(s[1..]);
      SinglesArrive(s[1..]);
    }
  }

  lemma {:induction false} ArrivesConcat(a: seq<seq<bv8>>, b: seq<seq<bv8>>, s: seq<bv8>, t: seq<bv8>)
    requires Arrives(a, s) && Arrives(b, t)
    ensures Arrives(a + b, s + t)
    decreases |a|
  {
    if a == [] {
      assert a + b == b && s + t == t;
    } else {
      assert (a + b)[0] == a[0] && (a + b)[1..] == a[1..] + b;
      ArrivesConcat(a[1..], b, Joined(a[1..]), t);
    }
  }

  /** Chunks without a quit line are passed over one by one. */
  lemma {:induction false} ServedPasses(st: LineState, a: seq<seq<bv8>>, b: seq<seq<bv8>>, s: seq<bv8>)
    requires Arrives(a, s) && !AnyQuit(Lines(st, s))
    ensures Served(st, a + b) == Lines(st, s) + Served(After(st, s), b)
    decreases |a|
  {
    hide AnyQuit, Lines, After;
    if a == [] {
      NoLines(st);
      assert a + b == b;
    } else {
      var t := Joined(a[1..]);
      assert (a + b)[0] == a[0] && (a + b)[1..] == a[1..] + b;
      LinesConcat(st, a[0], t);
      QuitConcat(Lines(st, a[0]), Lines(After(st, a[0]), t));
      ServedPasses(After(st, a[0]), a[1..], b, t);
      assert Lines(st, a[0]) + (Lines(After(st, a[0]), t) + Served(After(st, s), b))
          == Lines(st, s) + Served(After(st, s), b);
    }
  }

  /** Before the first quit line ends there is none, and the byte at its end completes it. */
  lemma {:induction false} QuitByte(st: LineState, s: seq<bv8>, p: nat)
    requires AnyQuit(Lines(st, s)) && p == UntilQuit(st, s)
    ensures p >= 1 && !AnyQuit(Lines(st, s[..p - 1])) && AnyQuit(Lines(After(st, s[..p - 1]), [s[p - 1]]))
    decreases |s|
  {
    hide Next, Completed, AnyQuit;
    NoLinesNoQuit();
    if s != [] {
      var c := Completed(st, s[0]);
      QuitConcat(c, Lines(Next(st, s[0]), s[1..]));
      if AnyQuit(c) {
        assert s[..0] == [];
        SingleLine(st, s[0]);
      } else {
        QuitByte(Next(st, s[0]), s[1..], p - 1);
        assert s[..p - 1][1..] == s[1..][..p - 2];
        QuitConcat(c, Lines(Next(st, s[0]), s[1..][..p - 2]));
      }
    }
  }

  lemma SingleLine(st: LineState, c: bv8)
    ensures Lines(st, [c]) == Completed(st, c)
  {
    assert [c][1..] == [];
  }

  /** The bytes that can share a chunk with the end of the first quit line. */
  function Tail(st: LineState, s: seq<bv8>): seq<bv8> {
    var p := UntilQuit(st, s);
    s[p..Min(p + RECV_MAX - 1, |s|)]
  }

  /** No line ends in those bytes. */
  predicate QuietTail(s: seq<bv8>) {
    Lines(After(FRESH, s[..UntilQuit(FRESH, s)]), Tail(FRESH, s)) == []
  }

  lemma {:induction false} SameWhenQuiet(chunks: seq<seq<bv8>>, s: seq<bv8>)
    requires QuietTail(s) && Arrives(chunks, s)
    ensures Served(FRESH, chunks) == Lines(FRESH, s[..UntilQuit(FRESH, s)])
  {
    hide Served, Lines, After, AnyQuit, UntilQuit;
    var p := UntilQuit(FRESH, s);
    var e := ServedIsCut(FRESH, chunks, s);
    var tail := Tail(FRESH, s);
    assert s[..e] == s[..p] + s[p..e];
    LinesConcat(FRESH, s[..p], s[p..e]);
    assert tail == s[p..e] + tail[e - p..];
    LinesConcat(After(FRESH, s[..p]), s[p..e], tail[e - p..]);
  }

  lemma NoQuitIsQuiet(s: seq<bv8>)
    ensures !AnyQuit(Lines(FRESH, s)) ==> QuietTail(s)
  {
    hide Lines, After, AnyQuit, UntilQuit;
    UntilQuitConcat(FRESH, s, []);
    NoLines(After(FRESH, s[..UntilQuit(FRESH, s)]));
    assert s + [] == s;
  }

  /** Two ways to arrive that are handled differently, when a line does end in those bytes. */
  lemma {:induction false} DifferUnlessQuiet(s: seq<bv8>) returns (narrow: seq<seq<bv8>>, wide: seq<seq<bv8>>)
    requires !QuietTail(s)
    ensures Arrives(narrow, s) && Arrives(wide, s) && Served(FRESH, narrow) != Served(FRESH, wide)
  {
    hide Lines, After, AnyQuit, UntilQuit, Arrives;
    var p := UntilQuit(FRESH, s);
    NoQuitIsQuiet(s);
    QuitByte(FRESH, s, p);
    var head, q := s[..p - 1], Min(p + RECV_MAX - 1, |s|);
    var tail := Tail(FRESH, s);
    SinglesArrive(head);
    SinglesArrive(s[p..]);
    SinglesArrive(s[q..]);
    assert Arrives([s[p - 1..p]], s[p - 1..p]) by { OneChunk(s[p - 1..p]); }
    assert Arrives([s[p - 1..q]], s[p - 1..q]) by { OneChunk(s[p - 1..q]); }
    ArrivesConcat([s[p - 1..p]], Singles(s[p..]), s[p - 1..p], s[p..]);
    ArrivesConcat([s[p - 1..q]], Singles(s[q..]), s[p - 1..q], s[q..]);
    narrow := Singles(head) + ([s[p - 1..p]] + Singles(s[p..]));
    wide := Singles(head) + ([s[p - 1..q]] + Singles(s[q..]));
    ArrivesConcat(Singles(head), [s[p - 1..p]] + Singles(s[p..]), head, s[p - 1..p] + s[p..]);
    ArrivesConcat(Singles(head), [s[p - 1..q]] + Singles(s[q..]), head, s[p - 1..q] + s[q..]);
    ThreeParts(s, p - 1, p);
    ThreeParts(s, p - 1, q);
    var st := After(FRESH, head);
    ServedPasses(FRESH, Singles(head), [s[p - 1..p]] + Singles(s[p..]), head);
    ServedPasses(FRESH, Singles(head), [s[p - 1..q]] + Singles(s[q..]), head);
    assert s[p - 1..p] == [s[p - 1]] && s[p - 1..q] == [s[p - 1]] + tail && s[..p] == head + [s[p - 1]];
    LinesConcat(st, [s[p - 1]], tail);
    LinesConcat(FRESH, head, [s[p - 1]]);
    QuitConcat(Lines(st, [s[p - 1]]), Lines(After(st, [s[p - 1]]), tail));
    assert Served(st, [s[p - 1..p]] + Singles(s[p..])) == Lines(st, [s[p - 1]]);
    assert Served(st, [s[p - 1..q]] + Singles(s[q..])) == Lines(st, [s[p - 1]]) + Lines(After(st, [s[p - 1]]), tail);
  }

  lemma ThreeParts(s: seq<bv8>, a: nat, b: nat)
    requires a <= b <= |s|
    ensures s[..a] + (s[a..b] + s[b..]) == s
  {
  }

  lemma OneChunk(c: seq<bv8>)
    requires 0 < |c| <= RECV_MAX
    ensures Arrives([c], c)
  {
    assert [c][1..] == [] && c + [] == c;
  }

  /** What is handled does not depend on how a stream is cut into chunks exactly when no line
      ends within a receive buffer behind the end of the first quit line: the server asks
      whether to stop between chunks, not between lines. */
  lemma {:induction false} ChunksDoNotMatter(s: seq<bv8>)
    ensures (forall a, b :: Arrives(a, s) && Arrives(b, s) ==> Served(FRESH, a) == Served(FRESH, b))
       <==> QuietTail(s)
  {
    hide Served, Arrives, QuietTail;
    if QuietTail(s) {
      forall a, b | Arrives(a, s) && Arrives(b, s) ensures Served(FRESH, a) == Served(FRESH, b) {
        SameWhenQuiet(a, s);
        SameWhenQuiet(b, s);
      }
    } else {
      var narrow, wide := DifferUnlessQuiet(s);
    }
  }

  /** In particular, without a quit line every byte counts and chunks never matter. */
  lemma {:induction false} WithoutQuit(chunks: seq<seq<bv8>>, s: seq<bv8>)
    requires Arrives(chunks, s) && !AnyQuit(Lines(FRESH, s))
    ensures Served(FRESH, chunks) == Lines(FRESH, s)
  {
    hide Served, Lines, AnyQuit, UntilQuit;
    var e := ServedIsCut(FRESH, chunks, s);
    assert s[..|s|] == s;
  }

  // ---- The client's escape ------------------------------------------------------------

  predicate NeedsEscape(c: bv8) {
    c == CR || c == LF || c == ESC || c == PLUS
  }

  /** PrologixGateway.escape, on bytes. */
  function Escape(text: seq<bv8>): seq<bv8>
    decreases |text|
  {
    if text == [] then []
    else (if NeedsEscape(text[0]) then [ESC, text[0]] else [text[0]]) + Escape(text[1..])
  }

  /** As much of a text as the server's line buffer takes. */
  function Truncated(text: seq<bv8>): seq<bv8> {
    text[..Min(|text|, LINE_MAX)]
  }

  /** An escaped text completes no line and is stored byte for byte. */
  lemma {:induction false} EscapeFeeds(line: seq<bv8>, text: seq<bv8>)
    requires |line| <= LINE_MAX
    ensures var s := Escape(text);
            Lines(LineState(line, false), s) == [] &&
            After(LineState(line, false), s) == LineState((line + text)[..Min(|line + text|, LINE_MAX)], false)
    decreases |text|
  {
    hide Next, Completed, NeedsEscape;
    if text == [] {
      assert (line + text)[..Min(|line + text|, LINE_MAX)] == line;
    } else {
      var c := text[0];
      var line' := Stored(line, c);
      EscapeFeeds(line', text[1..]);
      EscapedByte(line, c);
      var head := if NeedsEscape(c) then [ESC, c] else [c];
      LinesConcat(LineState(line, false), head, Escape(text[1..]));
      StoredCut(line, text);
    }
  }

  lemma StoredCut(line: seq<bv8>, text: seq<bv8>)
    requires |line| <= LINE_MAX && text != []
    ensures var more := Stored(line, text[0]) + text[1..];
            more[..Min(|more|, LINE_MAX)] == (line + text)[..Min(|line + text|, LINE_MAX)]
  {
    if |line| < LINE_MAX {
      assert line + [text[0]] + text[1..] == line + text;
    } else {
      assert (line + text[1..])[..LINE_MAX] == line && (line + text)[..LINE_MAX] == line;
    }
  }

  lemma EscapedByte(line: seq<bv8>, c: bv8)
    ensures var head := if NeedsEscape(c) then [ESC, c] else [c];
            var st := LineState(line, false);
            Lines(st, head) == [] && After(st, head) == LineState(Stored(line, c), false)
  {
    var st := LineState(line, false);
    if NeedsEscape(c) {
      assert [ESC, c][1..] == [c] && [c][1..] == [];
      assert Lines(Next(st, ESC), [c]) == [] && After(Next(st, ESC), [c]) == Next(Next(st, ESC), c);
    } else {
      assert [c][1..] == [];
    }
  }

  /** What the client puts on the wire for a list of texts. */
  function Wire(texts: seq<seq<bv8>>): seq<bv8>
    decreases |texts|
  {
    if texts == [] then [] else Escape(texts[0]) + [LF] + Wire(texts[1..])
  }

  /** The lines that come of them: empty texts vanish, long ones are cut. */
  function Received(texts: seq<seq<bv8>>): seq<seq<bv8>>
    decreases |texts|
  {
    if texts == [] then []
    else (if texts[0] == [] then [] else [Truncated(texts[0])]) + Received(texts[1..])
  }

  /** Escaping and the byte loop are inverse to each other, but for empty and long texts. */
  lemma {:induction false} WireReadsBack(texts: seq<seq<bv8>>)
    ensures Lines(FRESH, Wire(texts)) == Received(texts) && After(FRESH, Wire(texts)) == FRESH
    decreases |texts|
  {
    if texts != [] {
      hide Escape, Next, Completed, Lines, After;
      var t, rest := texts[0], Wire(texts[1..]);
      WireReadsBack(texts[1..]);
      EscapeFeeds([], t);
      assert [] + t == t;
      var st := LineState(Truncated(t), false);
      LinesConcat(FRESH, Escape(t), [LF] + rest);
      assert Wire(texts) == Escape(t) + ([LF] + rest);
      LineEnds(Truncated(t), rest);
    }
  }

  lemma LineEnds(line: seq<bv8>, rest: seq<bv8>)
    ensures var st := LineState(line, false);
            Lines(st, [LF] + rest) == (if line == [] then [] else [line]) + Lines(FRESH, rest) &&
            After(st, [LF] + rest) == After(FRESH, rest)
  {
    assert ([LF] + rest)[1..] == rest;
  }

  /** Plain bytes complete no line and are stored as they are, as far as the buffer goes. */
  lemma {:induction false} PlainFeeds(line: seq<bv8>, text: seq<bv8>)
    requires |line| <= LINE_MAX
    requires forall i: nat :: i < |text| ==> text[i] != 0x0A && text[i] != 0x0D && text[i] != 0x1B
    ensures Lines(LineState(line, false), text) == []
    ensures After(LineState(line, false), text) == LineState((line + text)[..Min(|line + text|, LINE_MAX)], false)
    decreases |text|
  {
    if text == [] {
      assert (line + text)[..Min(|line + text|, LINE_MAX)] == line;
    } else {
      hide Stored;
      assert Next(LineState(line, false), text[0]) == LineState(Stored(line, text[0]), false);
      StoredCut(line, text);
      PlainFeeds(Stored(line, text[0]), text[1..]);
    }
  }

  /** A line ends at a line feed and at a carriage return alike; nothing comes of an empty one, so
      that a pair of them ends one line. Of a long line the first 1024 bytes are handled. */
  lemma {:induction false} EitherByteEndsALine(text: seq<bv8>, e: bv8, rest: seq<bv8>)
    requires e == 0x0A || e == 0x0D
    requires forall i: nat :: i < |text| ==> text[i] != 0x0A && text[i] != 0x0D && text[i] != 0x1B
    ensures 1 <= |text| <= 1024 ==> Lines(FRESH, text + [e] + rest) == [text] + Lines(FRESH, rest)
    ensures |text| > 1024 ==> Lines(FRESH, text + [e] + rest) == [text[..1024]] + Lines(FRESH, rest)
    ensures Lines(FRESH, [e] + rest) == Lines(FRESH, rest)
  {
    hide Next, Lines, After;
    PlainFeeds([], text);
    assert [] + text == text && text[..|text|] == text;
    LinesConcat(FRESH, text, [e] + rest);
    assert text + [e] + rest == text + ([e] + rest);
    EndByte(LineState(Truncated(text), false), e, rest);
    EndByte(FRESH, e, rest);
  }

  lemma EndByte(st: LineState, e: bv8, rest: seq<bv8>)
    requires (e == 0x0A || e == 0x0D) && !st.escaped
    ensures Lines(st, [e] + rest) == (if st.line == [] then [] else [st.line]) + Lines(FRESH, rest)
  {
    assert ([e] + rest)[1..] == rest;
  }

  /** Behind an escape every byte is stored, whatever it is, and nothing else is. */
  lemma EscapedByteIsStored(line: seq<bv8>, c: bv8, rest: seq<bv8>)
    requires |line| < 1024
    ensures Lines(LineState(line, false), [0x1B, c] + rest) == Lines(LineState(line + [c], false), rest)
  {
    var s := [0x1B, c] + rest;
    assert s[1..] == [c] + rest && ([c] + rest)[1..] == rest;
    assert Lines(LineState(line, true), [c] + rest) == Lines(LineState(line + [c], false), rest);
  }

  /** The client escapes four bytes and no others, each by itself. */
  lemma {:induction false} EscapeMarks(a: seq<bv8>, b: seq<bv8>)
    ensures Escape(a + b) == Escape(a) + Escape(b)
    ensures forall c: bv8 ::
              Escape([c]) == if c == 0x0A || c == 0x0D || c == 0x1B || c == 0x2B then [0x1B, c] else [c]
    decreases |a|
  {
    forall c: bv8
      ensures Escape([c]) == if c == 0x0A || c == 0x0D || c == 0x1B || c == 0x2B then [0x1B, c] else [c]
    {
      assert [c][1..] == [];
    }
    if a == [] {
      assert a + b == b;
    } else {
      hide NeedsEscape;
      assert (a + b)[0] == a[0] && (a + b)[1..] == a[1..] + b;
      EscapeMarks(a[1..], b);
    }
  }

  /** What a line hands to do_write. */
  function Handed(line: seq<bv8>): seq<seq<bv8>> {
    if Dispatch(line).Data? then [Dispatch(line).text] else []
  }

  /** The texts among some lines that are handed to do_write. */
  function Writes(lines: seq<seq<bv8>>): seq<seq<bv8>>
    decreases |lines|
  {
    if lines == [] then [] else Handed(lines[0]) + Writes(lines[1..])
  }

  predicate Deliverable(text: seq<bv8>) {
    1 <= |text| <= 1024 && !(|text| >= 2 && text[0] == 0x2B && text[1] == 0x2B)
  }

  lemma {:induction false} WritesAtMost(texts: seq<seq<bv8>>)
    ensures |Writes(Received(texts))| <= |texts|
    decreases |texts|
  {
    hide Dispatch;
    if texts != [] {
      WritesAtMost(texts[1..]);
      FirstWrite(texts);
    }
  }

  lemma FirstWrite(texts: seq<seq<bv8>>)
    requires texts != []
    ensures var t := Truncated(texts[0]);
            Writes(Received(texts)) ==
            (if t != [] && !IsCommand(t) then [t] else []) + Writes(Received(texts[1..]))
  {
    var t, rest := Truncated(texts[0]), Received(texts[1..]);
    if texts[0] != [] {
      assert ([t] + rest)[1..] == rest;
    } else {
      assert [] + rest == rest;
    }
  }

  lemma CutIsCommand(text: seq<bv8>)
    ensures IsCommand(Truncated(text)) == IsCommand(text)
    ensures Truncated(text) == text <==> |text| <= LINE_MAX
    ensures Truncated(text) != [] <==> text != []
    ensures Deliverable(text) <==> 1 <= |text| <= LINE_MAX && !IsCommand(text)
  {
  }

  predicate AllDeliverable(texts: seq<seq<bv8>>) {
    forall i :: 0 <= i < |texts| ==> Deliverable(texts[i])
  }

  lemma AllSplit(texts: seq<seq<bv8>>)
    requires texts != []
    ensures AllDeliverable(texts) <==> Deliverable(texts[0]) && AllDeliverable(texts[1..])
  {
    hide Deliverable;
    if Deliverable(texts[0]) && AllDeliverable(texts[1..]) {
      forall i | 0 <= i < |texts| ensures Deliverable(texts[i]) {
        if i > 0 { assert texts[i] == texts[1..][i - 1]; }
      }
    }
  }

  lemma HeadAndRest(head: seq<seq<bv8>>, rest: seq<seq<bv8>>, texts: seq<seq<bv8>>)
    requires texts != [] && |head| <= 1 && |rest| <= |texts| - 1
    ensures head + rest == texts <==> head == [texts[0]] && rest == texts[1..]
  {
    if head + rest == texts {
      assert |head| == 1 && head[0] == texts[0];
      assert rest == (head + rest)[1..];
    }
  }

  /** A list of texts reaches do_write as it is exactly when every text has 1 to 1024 bytes and
      none begins with two plus signs: the escape does not keep the server from taking
      such a text for a command of its own. */
  lemma {:induction false} DeliveredExactly(texts: seq<seq<bv8>>)
    ensures Writes(Lines(FRESH, Wire(texts))) == texts <==> AllDeliverable(texts)
  {
    WireReadsBack(texts);
    ReceivedExactly(texts);
  }

  lemma {:induction false} ReceivedExactly(texts: seq<seq<bv8>>)
    ensures Writes(Received(texts)) == texts <==> AllDeliverable(texts)
    decreases |texts|
  {
    hide Writes, Received, IsCommand;
    if texts == [] {
      NothingWritten();
    } else {
      var t, rest := Truncated(texts[0]), texts[1..];
      ReceivedExactly(rest);
      FirstWrite(texts);
      WritesAtMost(rest);
      CutIsCommand(texts[0]);
      AllSplit(texts);
      var head := if t != [] && !IsCommand(t) then [t] else [];
      HeadAndRest(head, Writes(Received(rest)), texts);
      assert head == [texts[0]] <==> head != [] && t == texts[0];
    }
  }

  lemma {:induction false} WritesConcat(a: seq<seq<bv8>>, b: seq<seq<bv8>>)
    ensures Writes(a + b) == Writes(a) + Writes(b)
    decreases |a|
  {
    hide Handed;
    if a == [] {
      assert a + b == b;
    } else {
      assert (a + b)[0] == a[0] && (a + b)[1..] == a[1..] + b;
      WritesConcat(a[1..], b);
      assert Handed(a[0]) + (Writes(a[1..]) + Writes(b)) == (Handed(a[0]) + Writes(a[1..])) + Writes(b);
    }
  }

  /** And so over the network: however the escaped texts arrive, what serve_client hands to do_write
      is the list of texts, in order, exactly when every text is deliverable. */
  lemma {:induction false} WireDelivered(texts: seq<seq<bv8>>, chunks: seq<seq<bv8>>)
    requires Arrives(chunks, Wire(texts))
    ensures Writes(Served(FRESH, chunks)) == texts <==> AllDeliverable(texts)
  {
    hide Served, Lines, AnyQuit, UntilQuit, Writes, Received, Wire, AllDeliverable;
    DeliveredExactly(texts);
    WireReadsBack(texts);
    WritesAtMost(texts);
    var s := Wire(texts);
    var e := ServedIsCut(FRESH, chunks, s);
    assert s == s[..e] + s[e..];
    LinesConcat(FRESH, s[..e], s[e..]);
    var rest := Lines(After(FRESH, s[..e]), s[e..]);
    WritesConcat(Served(FRESH, chunks), rest);
    if AllDeliverable(texts) {
      DeliverableIsNoQuit(texts);
      assert s[..|s|] == s;
    }
    if |Writes(Served(FRESH, chunks))| == |texts| {
      assert Writes(rest) == [];
      assert Writes(Served(FRESH, chunks)) + [] == Writes(Served(FRESH, chunks));
    }
  }

  lemma {:induction false} DeliverableIsNoQuit(texts: seq<seq<bv8>>)
    requires AllDeliverable(texts)
    ensures Received(texts) == texts && !AnyQuit(texts)
    decreases |texts|
  {
    hide IsCommand, Deliverable;
    if texts != [] {
      assert Deliverable(texts[0]);
      AllSplit(texts);
      CutIsCommand(texts[0]);
      DeliverableIsNoQuit(texts[1..]);
      assert [texts[0]] + texts[1..] == texts;
    }
  }

  lemma NothingWritten()
    ensures Writes(Received([])) == []
  {
  }

  // ---- do_write -----------------------------------------------------------------------

  /** The terminator that ++eos chooses. */
  function Terminator(eos: nat): seq<bv8> {
    if eos == 0 then [CR, LF] else if eos == 1 then [CR] else if eos == 2 then [LF] else []
  }

  /** The buffer that do_write hands to the driver, and whether it asks for an answer. */
  method WriteBuffer(data: seq<bv8>, eos: nat) returns (buf: array<bv8>, n: nat, query: bool)
    ensures fresh(buf) && n <= buf.Length && buf[..n] == Truncated(data) + Terminator(eos)
    ensures eos == 0 ==> buf[..n] == data[..Min(|data|, 1024)] + [0x0D, 0x0A]
    ensures eos == 1 ==> buf[..n] == data[..Min(|data|, 1024)] + [0x0D]
    ensures eos == 2 ==> buf[..n] == data[..Min(|data|, 1024)] + [0x0A]
    ensures eos > 2 ==> buf[..n] == data[..Min(|data|, 1024)]
    ensures query == (data != [] && Truncated(data)[|Truncated(data)| - 1] == 0x3F)
  {
    buf := new bv8[LINE_MAX + 2](i => 0);
    var len := if |data| > LINE_MAX then LINE_MAX else |data|;
    n := 0;
    while n < len
      invariant n <= len && buf[..n] == data[..n]
    {
      buf[n] := data[n];
      n := n + 1;
      assert buf[..n] == buf[..n - 1] + [data[n - 1]];
    }
    query := len > 0 && data[len - 1] == 0x3F;
    if eos == 0 {
      buf[n], buf[n + 1] := CR, LF;
      n := n + 2;
    } else if eos == 1 {
      buf[n] := CR;
      n := n + 1;
    } else if eos == 2 {
      buf[n] := LF;
      n := n + 1;
    }
  }
}
