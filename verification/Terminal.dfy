/**
  A terminal that understands the control functions that tui.c uses: CUP, EL,
  ED and SGR (sections 8.3.21, 8.3.41, 8.3.39 and 8.3.117 of ECMA-48).
 */
module Terminal {
  import opened Bytes

  const COLS: nat := 80
  const ROWS: nat := 25

  // A character on the screen and its colours. The colours of an erased cell are
  // left open by the standard, which -1 stands for.
  datatype Glyph = Glyph(ch: nat, fg: int, bg: int)

  const ERASED := Glyph(0x20, -1, -1)

  datatype Mode =
    | Ground
    | Escape
    | Control(params: seq<nat>, last: nat, priv: bool)

  datatype Term = Term(screen: seq<Glyph>, row: nat, col: nat, fg: int, bg: int, mode: Mode)

  // The cursor may stand behind the last column.
  ghost predicate TermOk(t: Term) {
    |t.screen| == ROWS * COLS && t.row < ROWS && t.col <= COLS
  }

  function At(row: nat, col: nat): nat { row * 80 + col }

  predicate Graphic(b: nat) { 0x20 <= b < 0x7F }

  function Clip(v: nat, n: nat): nat
    requires n > 0
  {
    if v == 0 then 0 else if v > n then n - 1 else v - 1
  }

  // A graphic character; behind the last column it is lost.
  function Print(t: Term, b: nat): Term
    requires TermOk(t)
  {
    if t.col == COLS then t
    else t.(screen := t.screen[At(t.row, t.col) := Glyph(b, t.fg, t.bg)], col := t.col + 1)
  }

  function EraseLine(t: Term): Term {
    t.(screen := seq(|t.screen|, i requires 0 <= i < |t.screen| =>
         if At(t.row, t.col) <= i < At(t.row, COLS) then ERASED else t.screen[i]))
  }

  function EraseAll(t: Term): Term {
    t.(screen := seq(|t.screen|, _ => ERASED))
  }

  function Rendition(t: Term, p: nat): Term {
    if 30 <= p <= 37 then t.(fg := p - 30)
    else if 90 <= p <= 97 then t.(fg := p - 82)
    else if 40 <= p <= 47 then t.(bg := p - 40)
    else if 100 <= p <= 107 then t.(bg := p - 92)
    else if p == 0 then t.(fg := -1, bg := -1)
    else t
  }

  function Renditions(t: Term, ps: seq<nat>): Term
    decreases |ps|
  {
    if ps == [] then t else Renditions(Rendition(t, ps[0]), ps[1..])
  }

  // The control function with final byte b.
  function Perform(t: Term, b: nat, ps: seq<nat>): Term
    requires ps != []
  {
    if b == 0x48 then t.(row := Clip(ps[0], ROWS), col := if |ps| > 1 then Clip(ps[1], COLS) else 0)
    else if b == 0x4A && ps[0] == 2 then EraseAll(t)
    else if b == 0x4B && ps[0] == 0 then EraseLine(t)
    else if b == 0x6D then Renditions(t, ps)
    else t
  }

  function Step(t: Term, b: nat): (r: Term)
    requires TermOk(t)
  {
    match t.mode
    case Ground =>
      if b == 0x1B then t.(mode := Escape)
      else if Graphic(b) then Print(t, b)
      else if b == 9 then t.(col := if t.col / 8 * 8 + 8 < COLS then t.col / 8 * 8 + 8 else COLS - 1)
      else t
    case Escape => t.(mode := if b == 0x5B then Control([], 0, false) else Ground)
    case Control(ps, n, priv) =>
      if 0x30 <= b <= 0x39 then t.(mode := Control(ps, 10 * n + (b - 0x30), priv))
      else if b == 0x3B then t.(mode := Control(ps + [n], 0, priv))
      else if b == 0x3F then t.(mode := Control(ps, n, true))
      else if 0x40 <= b <= 0x7E then (if priv then t else Perform(t, b, ps + [n])).(mode := Ground)
      else t
  }

  lemma StepOk(t: Term, b: nat)
    requires TermOk(t)
    ensures TermOk(Step(t, b))
  {
    if t.mode.Control? { RenditionsOk(t, t.mode.params + [t.mode.last]); }
  }

  lemma {:induction false} RenditionsOk(t: Term, ps: seq<nat>)
    ensures var r := Renditions(t, ps); r.screen == t.screen && r.row == t.row && r.col == t.col
    decreases |ps|
  {
    if ps != [] { RenditionsOk(Rendition(t, ps[0]), ps[1..]); }
  }

  // What the terminal makes of a stream of bytes.
  function Feed(t: Term, bs: seq<byte>): (r: Term)
    requires TermOk(t)
    ensures TermOk(r)
  {
    if bs == [] then t
    else
      var u := Feed(t, bs[..|bs| - 1]);
      StepOk(u, bs[|bs| - 1]);
      Step(u, bs[|bs| - 1])
  }

  lemma FeedOne(t: Term, bs: seq<byte>, b: byte)
    requires TermOk(t)
    ensures Feed(t, bs + [b]) == Step(Feed(t, bs), b)
  {
    assert (bs + [b])[..|bs|] == bs;
  }

  lemma {:induction false} FeedConcat(t: Term, a: seq<byte>, b: seq<byte>)
    requires TermOk(t)
    ensures Feed(t, a + b) == Feed(Feed(t, a), b)
    decreases |b|
  {
    if b == [] {
      assert a + b == a;
    } else {
      var b' := b[..|b| - 1];
      FeedConcat(t, a, b');
      assert a + b == (a + b') + [b[|b| - 1]];
      FeedOne(t, a + b', b[|b| - 1]);
    }
  }

  // ---- decimals ----

  function Digits(n: nat): seq<byte> {
    if n < 10 then [0x30 + n] else Digits(n / 10) + [0x30 + n % 10]
  }

  // A number printed is the number read.
  lemma {:induction false} FeedDigits(t: Term, ps: seq<nat>, n: nat)
    requires TermOk(t) && t.mode == Control(ps, 0, false)
    ensures Feed(t, Digits(n)) == t.(mode := Control(ps, n, false))
  {
    if n < 10 {
      FeedOne(t, [], 0x30 + n);
      assert [] + [0x30 + n] == Digits(n);
    } else {
      FeedDigits(t, ps, n / 10);
      FeedOne(t, Digits(n / 10), 0x30 + n % 10);
    }
  }

  // ESC [ a ; b final
  function TwoParams(a: nat, b: nat, final: byte): seq<byte> {
    [0x1B, 0x5B] + Digits(a) + [0x3B] + Digits(b) + [final]
  }

  lemma FeedTwo(t: Term, a: nat, b: nat, final: byte)
    requires TermOk(t) && t.mode == Ground && 0x40 <= final <= 0x7E
    ensures Feed(t, TwoParams(a, b, final)) ==
      Perform(t.(mode := Control([a], b, false)), final, [a, b]).(mode := Ground)
  {
    var s0: seq<byte> := [0x1B];
    var s1 := [0x1B, 0x5B];
    FeedOne(t, [], 0x1B);
    assert [] + [0x1B] == s0;
    FeedOne(t, s0, 0x5B);
    assert s0 + [0x5B] == s1;
    FeedConcat(t, s1, Digits(a));
    FeedDigits(Feed(t, s1), [], a);
    FeedOne(t, s1 + Digits(a), 0x3B);
    var u := Feed(t, s1 + Digits(a) + [0x3B]);
    assert [] + [a] == [a];
    FeedConcat(t, s1 + Digits(a) + [0x3B], Digits(b));
    FeedDigits(u, [a], b);
    FeedOne(t, s1 + Digits(a) + [0x3B] + Digits(b), final);
    assert [a] + [b] == [a, b];
  }

  function GotoBytes(y: nat, x: nat): seq<byte> { TwoParams(y + 1, x + 1, 0x48) }

  // ansi_goto puts the cursor where it says.
  lemma FeedGoto(t: Term, y: nat, x: nat)
    requires TermOk(t) && t.mode == Ground && y < ROWS && x < COLS
    ensures Feed(t, GotoBytes(y, x)) == t.(row := y, col := x)
  {
    FeedTwo(t, y + 1, x + 1, 0x48);
  }

  function AnsiFg(fg: nat): nat { if fg >= 8 then 90 + (fg - 8) else 30 + fg }
  function AnsiBg(bg: nat): nat { if bg >= 8 then 100 + (bg - 8) else 40 + bg }

  function ColourBytes(fg: nat, bg: nat): seq<byte> { TwoParams(AnsiFg(fg), AnsiBg(bg), 0x6D) }

  // All sixteen colours survive their encoding.
  lemma FeedColour(t: Term, fg: nat, bg: nat)
    requires TermOk(t) && t.mode == Ground && fg < 16 && bg < 16
    ensures Feed(t, ColourBytes(fg, bg)) == t.(fg := fg, bg := bg)
  {
    hide Feed, Step, Renditions, TwoParams;
    FeedTwo(t, AnsiFg(fg), AnsiBg(bg), 0x6D);
    RenditionsTwo(t.(mode := Control([AnsiFg(fg)], AnsiBg(bg), false)), AnsiFg(fg), AnsiBg(bg));
  }

  lemma DecimalBytes(n: nat)
    requires n < 1000
    ensures Digits(n) ==
      if n < 10 then [0x30 + n] else if n < 100 then [0x30 + n / 10, 0x30 + n % 10]
      else [0x30 + n / 100, 0x30 + n / 10 % 10, 0x30 + n % 10]
  {
  }

  // The bytes that are sent: ESC [ row ; column H, and ESC [ 30 to 37 or 90 to 97 ;
  // 40 to 47 or 100 to 107 m.
  lemma GotoSent(y: nat, x: nat)
    requires y < 9 && x < 9
    ensures GotoBytes(y, x) == [0x1B, 0x5B, 0x31 + y, 0x3B, 0x31 + x, 0x48]
    ensures GotoBytes(y + 10, x + 70) == [0x1B, 0x5B, 0x31, 0x31 + y, 0x3B, 0x37, 0x31 + x, 0x48]
  {
    DecimalBytes(y + 1);
    DecimalBytes(x + 1);
    DecimalBytes(y + 11);
    DecimalBytes(x + 71);
  }

  lemma ColourSent(fg: nat, bg: nat)
    requires fg < 8 && bg < 8
    ensures ColourBytes(fg, bg) == [0x1B, 0x5B, 0x33, 0x30 + fg, 0x3B, 0x34, 0x30 + bg, 0x6D]
    ensures ColourBytes(fg + 8, bg) == [0x1B, 0x5B, 0x39, 0x30 + fg, 0x3B, 0x34, 0x30 + bg, 0x6D]
    ensures ColourBytes(fg, bg + 8) == [0x1B, 0x5B, 0x33, 0x30 + fg, 0x3B, 0x31, 0x30, 0x30 + bg, 0x6D]
    ensures ColourBytes(fg + 8, bg + 8) == [0x1B, 0x5B, 0x39, 0x30 + fg, 0x3B, 0x31, 0x30, 0x30 + bg, 0x6D]
  {
    hide Digits;
    DecimalBytes(30 + fg);
    DecimalBytes(40 + bg);
    DecimalBytes(90 + fg);
    DecimalBytes(100 + bg);
  }

  lemma RenditionsTwo(t: Term, a: nat, b: nat)
    ensures Renditions(t, [a, b]) == Rendition(Rendition(t, a), b)
  {
    assert [a, b][1..] == [b] && [b][1..] == [];
    assert Renditions(Rendition(t, a), [b]) == Renditions(Rendition(Rendition(t, a), b), []);
  }

  const ERASE_LINE: seq<byte> := [0x1B, 0x5B, 0x4B]

  lemma FeedErase(t: Term)
    requires TermOk(t) && t.mode == Ground
    ensures Feed(t, ERASE_LINE) == EraseLine(t)
  {
    FeedOne(t, [], 0x1B);
    assert [] + [0x1B] == [0x1B];
    FeedOne(t, [0x1B], 0x5B);
    assert [0x1B] + [0x5B] == [0x1B, 0x5B];
    FeedOne(t, [0x1B, 0x5B], 0x4B);
    assert [0x1B, 0x5B] + [0x4B] == ERASE_LINE;
    var u := t.(mode := Control([], 0, false));
    assert EraseLine(u).(mode := Ground) == EraseLine(t);
  }

  // ESC [ ? 25 l and ESC [ 2 J
  const HIDE_CURSOR: seq<byte> := [0x1B, 0x5B, 0x3F, 0x32, 0x35, 0x6C]
  const ERASE_ALL: seq<byte> := [0x1B, 0x5B, 0x32, 0x4A]

  lemma FeedHide(t: Term)
    requires TermOk(t) && t.mode == Ground
    ensures Feed(t, HIDE_CURSOR) == t
  {
    hide Feed, Perform;
    var s := HIDE_CURSOR;
    FeedNext(t, s, 0);
    FeedNext(t, s, 1);
    FeedNext(t, s, 2);
    FeedNext(t, s, 3);
    FeedNext(t, s, 4);
    FeedNext(t, s, 5);
    FeedNone(t);
    assert s[..0] == [] && s[..6] == s;
  }

  lemma FeedEraseAll(t: Term)
    requires TermOk(t) && t.mode == Ground
    ensures Feed(t, ERASE_ALL) == EraseAll(t)
  {
    hide Feed;
    var s := ERASE_ALL;
    FeedNext(t, s, 0);
    FeedNext(t, s, 1);
    FeedNext(t, s, 2);
    FeedNext(t, s, 3);
    FeedNone(t);
    assert s[..0] == [] && s[..4] == s;
    assert [] + [2] == [2];
    assert EraseAll(t.(mode := Control([], 2, false))).(mode := Ground) == EraseAll(t);
  }

  lemma FeedNone(t: Term)
    requires TermOk(t)
    ensures Feed(t, []) == t
  {
  }

  lemma FeedNext(t: Term, s: seq<byte>, k: nat)
    requires TermOk(t) && k < |s|
    ensures Feed(t, s[..k + 1]) == Step(Feed(t, s[..k]), s[k])
  {
    assert s[..k + 1] == s[..k] + [s[k]];
    FeedOne(t, s[..k], s[k]);
  }
}
