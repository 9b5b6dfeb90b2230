/** Frames as line words, and what the receive side reads back from a line. */
module Framing {
  import opened Words
  import opened Packets

  /** What one accepted beat adds to the line: SOF before the first word of a
      packet, EOF after its last. */
  function FrameWords(start: bool, b: Beat): seq<Word> {
    (if start then [Prim(SOF)] else []) + [Data(b.data)] + (if b.last then [Prim(EOF)] else [])
  }

  function Frame(bs: seq<Beat>): seq<Word> {
    if bs == [] then [] else Frame(Init(bs)) + FrameWords(!MidPacket(Init(bs)), Last(bs))
  }

  /** A line without the fill words of the framer. */
  function NoHold(ws: seq<Word>): seq<Word> {
    if ws == [] then []
    else if Last(ws) == Prim(HOLD) then NoHold(Init(ws))
    else NoHold(Init(ws)) + [Last(ws)]
  }

  /** What a receiver knows after reading a line: inside a frame or not, the data
      word it still holds back, the beats it has read, and whether a frame was
      cut off while a word was held back. */
  datatype Reader = Reader(inFrame: bool, held: Option<Dword>, out: seq<Beat>, bad: bool) {
    function Flush(last: bool): seq<Beat> {
      out + if held.Some? then [Beat(held.value, last)] else []
    }
  }

  function Read(r: Reader, w: Word): Reader {
    match w
    case Data(d) =>
      if r.inFrame then r.(held := Some(d), out := r.Flush(false)) else r.(held := None)
    case Prim(SOF) => r.(inFrame := true, bad := r.bad || r.held.Some?)
    case Prim(EOF) => r.(inFrame := false, held := None, out := r.Flush(true))
    case Prim(WTRM) => r.(inFrame := false, held := None, bad := r.bad || r.held.Some?)
    case Prim(SYNC) => r.(inFrame := false, held := None, bad := r.bad || r.held.Some?)
    case Prim(_) => r
  }

  function Deframe(ws: seq<Word>): Reader {
    if ws == [] then Reader(false, None, [], false) else Read(Deframe(Init(ws)), Last(ws))
  }

  lemma DeframeSnoc(ws: seq<Word>, w: Word)
    ensures Deframe(ws + [w]) == Read(Deframe(ws), w)
  {
    Snoc(ws, w);
  }

  /** Reading a frame stream gives back its beats, each exactly once, with its last mark. */
  function Expected(bs: seq<Beat>): Reader {
    if MidPacket(bs) then Reader(true, Some(Last(bs).data), Init(bs), false)
    else Reader(false, None, bs, false)
  }

  lemma FrameSnoc(bs: seq<Beat>, b: Beat)
    ensures Frame(bs + [b]) == Frame(bs) + FrameWords(!MidPacket(bs), b)
  {
    Snoc(bs, b);
  }

  lemma {:induction false} DeframeFrame(bs: seq<Beat>)
    ensures Deframe(Frame(bs)) == Expected(bs)
    decreases |bs|
  {
    if bs != [] {
      DeframeFrame(Init(bs));
      DeframeFrameStep(Init(bs), Last(bs));
    }
  }

  lemma DeframeFrameStep(i: seq<Beat>, b: Beat)
    requires Deframe(Frame(i)) == Expected(i)
    ensures Deframe(Frame(i + [b])) == Expected(i + [b])
  {
    FlushExpected(i);
    if !MidPacket(i) { DeframeSnoc(Frame(i), Prim(SOF)); }
    ReadBeat(i, b, if MidPacket(i) then Frame(i) else Frame(i) + [Prim(SOF)]);
    FrameSnoc(i, b);
    FrameShape(Frame(i), !MidPacket(i), b);
  }

  lemma FlushExpected(i: seq<Beat>)
    ensures Expected(i).Flush(false) == i
  {
  }

  lemma ReadBeat(i: seq<Beat>, b: Beat, f: seq<Word>)
    requires var r := Deframe(f); r.inFrame && !r.bad && r.Flush(false) == i
    ensures var f2 := f + [Data(b.data)];
            Deframe(if b.last then f2 + [Prim(EOF)] else f2) == Expected(i + [b])
  {
    DeframeSnoc(f, Data(b.data));
    DeframeSnoc(f + [Data(b.data)], Prim(EOF));
    Snoc(i, b);
  }

  lemma FrameShape(f: seq<Word>, start: bool, b: Beat)
    ensures f + FrameWords(start, b)
         == var f2 := (if start then f + [Prim(SOF)] else f) + [Data(b.data)];
            if b.last then f2 + [Prim(EOF)] else f2
  {
  }

  lemma NoHoldSnoc(ws: seq<Word>, w: Word)
    ensures NoHold(ws + [w]) == if w == Prim(HOLD) then NoHold(ws) else NoHold(ws) + [w]
  {
    Snoc(ws, w);
  }

  lemma {:induction false} DeframeNoHold(ws: seq<Word>)
    ensures Deframe(NoHold(ws)) == Deframe(ws)
    decreases |ws|
  {
    if ws != [] {
      DeframeNoHold(Init(ws));
      DeframeSnoc(NoHold(Init(ws)), Last(ws));
    }
  }

  lemma {:induction false} DeframePrefix(a: seq<Word>, b: seq<Word>)
    requires a <= b
    ensures Deframe(a).out <= Deframe(b).out
    ensures Deframe(a).bad ==> Deframe(b).bad
    decreases |b|
  {
    if |a| < |b| {
      assert a <= Init(b);
      DeframePrefix(a, Init(b));
    } else {
      assert a == b;
    }
  }

  lemma {:induction false} DeframeAfterAlign(ws: seq<Word>)
    ensures Deframe([Prim(ALIGN)] + ws) == Deframe(ws)
    decreases |ws|
  {
    if ws == [] {
      assert [Prim(ALIGN)] + ws == [] + [Prim(ALIGN)];
      DeframeSnoc([], Prim(ALIGN));
    } else {
      DeframeAfterAlign(Init(ws));
      assert [Prim(ALIGN)] + ws == ([Prim(ALIGN)] + Init(ws)) + [Last(ws)];
      DeframeSnoc([Prim(ALIGN)] + Init(ws), Last(ws));
    }
  }

  // ---- What a reader makes of a frame ----

  lemma {:induction false} HeldInFrame(ws: seq<Word>)
    ensures Deframe(ws).held.Some? ==> Deframe(ws).inFrame
    decreases |ws|
  {
    hide Read;
    if ws != [] {
      HeldInFrame(Init(ws));
      HeldStep(Deframe(Init(ws)), Last(ws));
    }
  }

  lemma HeldStep(r: Reader, w: Word)
    requires r.held.Some? ==> r.inFrame
    ensures Read(r, w).held.Some? ==> Read(r, w).inFrame
  {
  }

  /** The data words of a stretch of line. */
  function DataOf(ws: seq<Word>): seq<Dword> {
    if ws == [] then [] else DataOf(Init(ws)) + if Last(ws).Data? then [Last(ws).d] else []
  }

  /** No frame opens or ends in it. */
  predicate Within(ws: seq<Word>) {
    forall k :: 0 <= k < |ws| && ws[k].Prim? ==> ws[k].p !in {SOF, EOF, WTRM, SYNC}
  }

  predicate Closes(w: Word) {
    w == Prim(EOF) || w == Prim(WTRM) || w == Prim(SYNC)
  }

  /** Outside frames nothing but a SOF matters. */
  lemma {:induction false} Outside(before: seq<Word>, ws: seq<Word>)
    requires !Deframe(before).inFrame && forall k :: 0 <= k < |ws| ==> ws[k] != Prim(SOF)
    ensures Deframe(before + ws) == Deframe(before)
    decreases |ws|
  {
    hide Deframe;
    if ws == [] {
      assert before + ws == before;
    } else {
      Outside(before, Init(ws));
      assert before + ws == (before + Init(ws)) + [Last(ws)];
      DeframeSnoc(before + Init(ws), Last(ws));
      HeldInFrame(before);
    }
  }

  /** Inside one the data words come out as they come in, one behind, and nothing else does. */
  lemma {:induction false} Inside(before: seq<Word>, ws: seq<Word>)
    requires !Deframe(before).inFrame && Within(ws)
    ensures var r, ds := Deframe(before + [Prim(SOF)] + ws), DataOf(ws);
            && r.inFrame && r.bad == Deframe(before).bad
            && r.held == (if ds == [] then None else Some(Last(ds)))
            && r.out == Deframe(before).out + if ds == [] then [] else OpenBeats(Init(ds))
    decreases |ws|
  {
    hide Deframe, OpenBeats;
    var f := before + [Prim(SOF)];
    HeldInFrame(before);
    DeframeSnoc(before, Prim(SOF));
    if ws == [] {
      assert f + ws == f && Deframe(before).out + [] == Deframe(before).out;
    } else {
      Inside(before, Init(ws));
      assert f + ws == (f + Init(ws)) + [Last(ws)];
      DeframeSnoc(f + Init(ws), Last(ws));
      ReadInside(Deframe(f + Init(ws)), Deframe(before).out, DataOf(Init(ws)), Last(ws));
    }
  }

  lemma ReadInside(r: Reader, out: seq<Beat>, ds: seq<Dword>, w: Word)
    requires r.inFrame && r.held == (if ds == [] then None else Some(Last(ds)))
    requires r.out == out + if ds == [] then [] else OpenBeats(Init(ds))
    requires w.Prim? ==> w.p !in {SOF, EOF, WTRM, SYNC}
    ensures var n, es := Read(r, w), ds + if w.Data? then [w.d] else [];
            && n.inFrame && n.bad == r.bad
            && n.held == (if es == [] then None else Some(Last(es)))
            && n.out == out + if es == [] then [] else OpenBeats(Init(es))
  {
    if w.Data? {
      Snoc(ds, w.d);
      if ds != [] { assert OpenBeats(ds) == OpenBeats(Init(ds)) + [Beat(Last(ds), false)]; }
    } else {
      assert ds + [] == ds;
    }
  }

  /** A frame is read as one packet of its data words. Cut off by WTRM or SYNC it loses the last
      of them, and is bad, unless it had none. */
  lemma OneFrame(before: seq<Word>, ws: seq<Word>, end: Word)
    requires !Deframe(before).inFrame && Within(ws) && Closes(end)
    ensures var r, b, ds := Deframe(before + [Prim(SOF)] + ws + [end]), Deframe(before), DataOf(ws);
            && !r.inFrame && r.held.None?
            && r.bad == (b.bad || (end != Prim(EOF) && ds != []))
            && r.out == b.out + if end == Prim(EOF) then PacketBeats(ds)
                                else if ds == [] then [] else OpenBeats(Init(ds))
  {
    hide Deframe;
    Inside(before, ws);
    DeframeSnoc(before + [Prim(SOF)] + ws, end);
    var b, ds := Deframe(before), DataOf(ws);
    if ds == [] {
      assert b.out + PacketBeats(ds) == b.out && b.out + [] == b.out;
    } else {
      assert PacketBeats(ds) == OpenBeats(Init(ds)) + [Beat(Last(ds), true)];
    }
  }

  // ---- ALIGN, CONT and repeated primitives ----

  /** A line without ALIGNs, with runs of the same primitive taken as one. */
  function Squash(ws: seq<Word>): seq<Word> {
    if ws == [] then [] else SquashWord(Squash(Init(ws)), Last(ws))
  }

  function SquashWord(s: seq<Word>, w: Word): seq<Word> {
    if w == Prim(ALIGN) || (w.Prim? && s != [] && Last(s) == w) then s else s + [w]
  }

  lemma SquashSnoc(ws: seq<Word>, w: Word)
    ensures Squash(ws + [w]) == SquashWord(Squash(ws), w)
  {
    Snoc(ws, w);
  }

  /** A receiver cannot tell a line from its squashed form. */
  lemma {:induction false} DeframeSquash(ws: seq<Word>)
    ensures Deframe(Squash(ws)) == Deframe(ws)
    decreases |ws|
  {
    if ws != [] {
      DeframeSquash(Init(ws));
      ReadSquashed(Squash(Init(ws)), Last(ws));
    }
  }

  lemma ReadSquashed(s: seq<Word>, w: Word)
    ensures Deframe(SquashWord(s, w)) == Read(Deframe(s), w)
  {
    if w != Prim(ALIGN) {
      if w.Prim? && s != [] && Last(s) == w {
        ReadTwice(Deframe(Init(s)), w);
      } else {
        DeframeSnoc(s, w);
      }
    }
  }

  lemma ReadTwice(r: Reader, w: Word)
    requires w.Prim?
    ensures Read(Read(r, w), w) == Read(r, w)
  {
  }

  /** satalnk_rmcont as a stream function: is a CONT in force, and what is passed on. */
  function Suppressing(ws: seq<Word>): bool {
    ws != [] && if Last(ws).Prim? then Last(ws).p.CONT? else Suppressing(Init(ws))
  }

  function Passed(suppressing: bool, w: Word): seq<Word> {
    if w == Prim(ALIGN) || w == Prim(CONT) || (w.Data? && suppressing) then [] else [w]
  }

  function RemoveCont(ws: seq<Word>): seq<Word> {
    if ws == [] then [] else RemoveCont(Init(ws)) + Passed(Suppressing(Init(ws)), Last(ws))
  }

  lemma RemoveContSnoc(ws: seq<Word>, w: Word)
    ensures RemoveCont(ws + [w]) == RemoveCont(ws) + Passed(Suppressing(ws), w)
    ensures Suppressing(ws + [w]) == if w.Prim? then w.p.CONT? else Suppressing(ws)
  {
    Snoc(ws, w);
  }

  lemma {:induction false} RemoveContPrefix(a: seq<Word>, b: seq<Word>)
    requires a <= b
    ensures RemoveCont(a) <= RemoveCont(b)
    decreases |b|
  {
    if |a| < |b| {
      assert a <= Init(b);
      RemoveContPrefix(a, Init(b));
    } else {
      assert a == b;
    }
  }

  predicate AllData(ws: seq<Word>) {
    forall k :: 0 <= k < |ws| ==> ws[k].Data?
  }

  /** A CONT takes with it the data words that follow, to the next primitive. */
  lemma {:induction false} ContCovers(before: seq<Word>, ds: seq<Word>)
    requires AllData(ds)
    ensures RemoveCont(before + [Prim(CONT)] + ds) == RemoveCont(before) && Suppressing(before + [Prim(CONT)] + ds)
    decreases |ds|
  {
    hide RemoveCont, Suppressing;
    var c := before + [Prim(CONT)];
    if ds == [] {
      assert c + ds == c && RemoveCont(before) + [] == RemoveCont(before);
      RemoveContSnoc(before, Prim(CONT));
    } else {
      ContCovers(before, Init(ds));
      assert c + ds == (c + Init(ds)) + [Last(ds)];
      RemoveContSnoc(c + Init(ds), Last(ds));
    }
  }

  /** Elsewhere only ALIGNs go. */
  lemma {:induction false} Uncovered(before: seq<Word>, p: Primitive, ws: seq<Word>)
    requires !p.CONT? && forall k :: 0 <= k < |ws| ==> ws[k] != Prim(CONT) && ws[k] != Prim(ALIGN)
    ensures RemoveCont(before + [Prim(p)] + ws)
         == RemoveCont(before) + (if p.ALIGN? then [] else [Prim(p)]) + ws
    ensures !Suppressing(before + [Prim(p)] + ws)
    decreases |ws|
  {
    hide RemoveCont, Suppressing;
    var c := before + [Prim(p)];
    if ws == [] {
      assert c + ws == c;
      RemoveContSnoc(before, Prim(p));
    } else {
      Uncovered(before, p, Init(ws));
      assert c + ws == (c + Init(ws)) + [Last(ws)];
      RemoveContSnoc(c + Init(ws), Last(ws));
    }
  }
}
