/** What text looks like once it has been typed into a window and painted. */
module TuiText {
  import opened Bytes
  import opened Terminal
  import opened Tui

  // The cells with a line of text laid over those from `at` on.
  function Laid(buf: seq<Cell>, at: nat, line: seq<byte>, attr: byte): (r: seq<Cell>)
    ensures |r| == |buf|
  {
    seq(|buf|, i requires 0 <= i < |buf| => if at <= i < at + |line| then Cell(line[i - at], attr) else buf[i])
  }

  // The lines with a line feed after each but the last.
  function Joined(lines: seq<seq<byte>>): seq<byte> {
    if lines == [] then [] else if |lines| == 1 then lines[0] else lines[0] + [0x0A] + Joined(lines[1..])
  }

  // A line that fits its row is laid there, and the rest goes on behind it.
  lemma {:induction false} TypeLine(k: Caret, w: nat, h: nat, scroll: bool, attr: byte, line: seq<byte>,
                                    rest: seq<byte>)
    requires w >= 1 && h >= 1 && |k.buf| == w * h && k.cx + |line| <= w && k.cy < h && 0x0A !in line
    ensures Type(k, w, h, scroll, attr, line + rest) ==
      Type(Caret(Laid(k.buf, k.cy * w + k.cx, line, attr), k.cx + |line|, k.cy), w, h, scroll, attr, rest)
    decreases |line|
  {
    hide Type, Laid, Put;
    var at := k.cy * w + k.cx;
    if line == [] {
      LaidNone(k.buf, at, attr);
      assert line + rest == rest;
    } else {
      TypeOne(k, w, h, scroll, attr, line[0], line[1..] + rest, at);
      assert [line[0]] + (line[1..] + rest) == line + rest;
      TypeLine(Caret(k.buf[at := Cell(line[0], attr)], k.cx + 1, k.cy), w, h, scroll, attr, line[1..], rest);
      LaidMore(k.buf, at, line, attr);
    }
  }

  lemma TypeOne(k: Caret, w: nat, h: nat, scroll: bool, attr: byte, ch: byte, rest: seq<byte>, at: nat)
    requires w >= 1 && h >= 1 && |k.buf| == w * h && k.cx < w && k.cy < h && ch != 0x0A && at == k.cy * w + k.cx
    ensures at < |k.buf|
    ensures Type(k, w, h, scroll, attr, [ch] + rest) ==
      Type(Caret(k.buf[at := Cell(ch, attr)], k.cx + 1, k.cy), w, h, scroll, attr, rest)
  {
    Inside(w, h, k.cy, k.cx);
    assert ([ch] + rest)[1..] == rest;
  }

  lemma LaidNone(buf: seq<Cell>, at: nat, attr: byte)
    ensures Laid(buf, at, [], attr) == buf
  {
  }

  lemma LaidMore(buf: seq<Cell>, at: nat, line: seq<byte>, attr: byte)
    requires line != [] && at < |buf|
    ensures Laid(buf[at := Cell(line[0], attr)], at + 1, line[1..], attr) == Laid(buf, at, line, attr)
  {
  }

  // A line feed goes to the start of the next row.
  lemma TypeFeed(k: Caret, w: nat, h: nat, scroll: bool, attr: byte, rest: seq<byte>)
    requires w >= 1 && h >= 1 && |k.buf| == w * h && k.cy + 1 < h
    ensures Type(k, w, h, scroll, attr, [0x0A] + rest) == Type(Caret(k.buf, 0, k.cy + 1), w, h, scroll, attr, rest)
  {
    assert ([0x0A] + rest)[1..] == rest;
  }

  // Where a line of the text begins.
  function Start(k: Caret, j: nat): nat { if j == 0 then k.cx else 0 }

  // Cell (row, col) afterwards: a character of line row - k.cy, or what it was.
  ghost predicate LineCell(k: Caret, buf: seq<Cell>, w: nat, h: nat, attr: byte, lines: seq<seq<byte>>, row: nat,
                           col: nat)
    requires |k.buf| == |buf| == w * h && row < h && col < w
  {
    Inside(w, h, row, col);
    buf[row * w + col] ==
      if k.cy <= row < k.cy + |lines| && Start(k, row - k.cy) <= col < Start(k, row - k.cy) + |lines[row - k.cy]|
      then Cell(lines[row - k.cy][col - Start(k, row - k.cy)], attr) else k.buf[row * w + col]
  }

  lemma RowsApart(w: nat, a: nat, c: nat, b: nat, d: nat)
    requires c < w && d < w && a != b
    ensures a * w + c < b * w || a * w + c >= b * w + w
  {
    if a < b { assert (a + 1) * w <= b * w; } else { assert (b + 1) * w <= a * w; }
  }

  lemma LaidCell(k: Caret, w: nat, h: nat, attr: byte, line: seq<byte>, row: nat, col: nat)
    requires |k.buf| == w * h && k.cx + |line| <= w && k.cy < h && row < h && col < w
    ensures LineCell(k, Laid(k.buf, k.cy * w + k.cx, line, attr), w, h, attr, [line], row, col)
  {
    Inside(w, h, row, col);
    if row != k.cy { RowsApart(w, row, col, k.cy, 0); }
  }

  ghost predicate Lined(k: Caret, buf: seq<Cell>, w: nat, h: nat, attr: byte, lines: seq<seq<byte>>)
    requires |k.buf| == |buf| == w * h
  {
    forall row: nat, col: nat | row < h && col < w :: LineCell(k, buf, w, h, attr, lines, row, col)
  }

  // Lines that fit their rows lie in rows one below the other, the first from the
  // caret on and the others from the left edge, and nothing else changes.
  lemma {:induction false} TypeLines(k: Caret, w: nat, h: nat, scroll: bool, attr: byte, lines: seq<seq<byte>>)
    requires w >= 1 && h >= 1 && |k.buf| == w * h && lines != [] && k.cx + |lines[0]| <= w && k.cy + |lines| <= h
    requires forall j | 0 <= j < |lines| :: |lines[j]| <= w && 0x0A !in lines[j]
    ensures var r := Type(k, w, h, scroll, attr, Joined(lines));
            && r.cy == k.cy + |lines| - 1 && r.cx == Start(k, |lines| - 1) + |lines[|lines| - 1]|
            && Lined(k, r.buf, w, h, attr, lines)
    decreases |lines|
  {
    hide Lined, Type, Laid, Joined;
    var line, at := lines[0], k.cy * w + k.cx;
    var k1 := Caret(Laid(k.buf, at, line, attr), k.cx + |line|, k.cy);
    LineLaid(k, w, h, attr, line);
    if |lines| == 1 {
      OnlyLine(k, w, h, scroll, attr, lines);
    } else {
      var rest, k2 := lines[1..], Caret(k1.buf, 0, k.cy + 1);
      FirstLine(k, w, h, scroll, attr, lines);
      TypeLines(k2, w, h, scroll, attr, rest);
      NextLines(k, k1, k2, Type(k2, w, h, scroll, attr, Joined(rest)).buf, w, h, attr, lines);
    }
  }

  lemma LineLaid(k: Caret, w: nat, h: nat, attr: byte, line: seq<byte>)
    requires |k.buf| == w * h && k.cx + |line| <= w && k.cy < h
    ensures Lined(k, Laid(k.buf, k.cy * w + k.cx, line, attr), w, h, attr, [line])
  {
    hide LineCell, Laid;
    var r, lines := Laid(k.buf, k.cy * w + k.cx, line, attr), [line];
    forall row: nat, col: nat | row < h && col < w ensures LineCell(k, r, w, h, attr, lines, row, col) {
      LaidCell(k, w, h, attr, line, row, col);
    }
  }

  lemma OnlyLine(k: Caret, w: nat, h: nat, scroll: bool, attr: byte, lines: seq<seq<byte>>)
    requires w >= 1 && h >= 1 && |k.buf| == w * h && |lines| == 1 && k.cx + |lines[0]| <= w && k.cy < h
    requires 0x0A !in lines[0]
    ensures lines == [lines[0]]
    ensures Type(k, w, h, scroll, attr, Joined(lines)) ==
      Caret(Laid(k.buf, k.cy * w + k.cx, lines[0], attr), k.cx + |lines[0]|, k.cy)
  {
    hide Type, Laid;
    var line := lines[0];
    TypeLine(k, w, h, scroll, attr, line, []);
    assert line + [] == line;
    TypeNothing(Caret(Laid(k.buf, k.cy * w + k.cx, line, attr), k.cx + |line|, k.cy), w, h, scroll, attr);
  }

  lemma FirstLine(k: Caret, w: nat, h: nat, scroll: bool, attr: byte, lines: seq<seq<byte>>)
    requires w >= 1 && h >= 1 && |k.buf| == w * h && |lines| > 1 && k.cx + |lines[0]| <= w && k.cy + 1 < h
    requires 0x0A !in lines[0]
    ensures Type(k, w, h, scroll, attr, Joined(lines)) ==
      Type(Caret(Laid(k.buf, k.cy * w + k.cx, lines[0], attr), 0, k.cy + 1), w, h, scroll, attr, Joined(lines[1..]))
  {
    hide Type, Laid;
    var line, rest := lines[0], Joined(lines[1..]);
    assert line + [0x0A] + rest == line + ([0x0A] + rest);
    TypeLine(k, w, h, scroll, attr, line, [0x0A] + rest);
    TypeFeed(Caret(Laid(k.buf, k.cy * w + k.cx, line, attr), k.cx + |line|, k.cy), w, h, scroll, attr, rest);
  }

  lemma TypeNothing(k: Caret, w: nat, h: nat, scroll: bool, attr: byte)
    requires w >= 1 && h >= 1 && |k.buf| == w * h
    ensures Type(k, w, h, scroll, attr, []) == k
  {
  }

  lemma NextLine(k: Caret, k1: Caret, k2: Caret, r: seq<Cell>, w: nat, h: nat, attr: byte, lines: seq<seq<byte>>,
                 row: nat, col: nat)
    requires |k.buf| == |k1.buf| == |r| == w * h && row < h && col < w && |lines| > 1
    requires LineCell(k, k1.buf, w, h, attr, [lines[0]], row, col) && k2 == Caret(k1.buf, 0, k.cy + 1)
    requires LineCell(k2, r, w, h, attr, lines[1..], row, col)
    ensures LineCell(k, r, w, h, attr, lines, row, col)
  {
    Inside(w, h, row, col);
  }

  lemma NextLines(k: Caret, k1: Caret, k2: Caret, r: seq<Cell>, w: nat, h: nat, attr: byte, lines: seq<seq<byte>>)
    requires |k.buf| == |k1.buf| == |r| == w * h && |lines| > 1 && k2 == Caret(k1.buf, 0, k.cy + 1)
    requires Lined(k, k1.buf, w, h, attr, [lines[0]]) && Lined(k2, r, w, h, attr, lines[1..])
    ensures Lined(k, r, w, h, attr, lines)
  {
    hide LineCell;
    forall row: nat, col: nat | row < h && col < w ensures LineCell(k, r, w, h, attr, lines, row, col) {
      assert LineCell(k, k1.buf, w, h, attr, [lines[0]], row, col);
      assert LineCell(k2, r, w, h, attr, lines[1..], row, col);
      NextLine(k, k1, k2, r, w, h, attr, lines, row, col);
    }
  }

  // At the end of a row the text goes on in the next one.
  lemma TypeOn(k: Caret, w: nat, h: nat, scroll: bool, attr: byte, line: seq<byte>, rest: seq<byte>)
    requires w >= 1 && h >= 1 && |k.buf| == w * h && k.cx == w && k.cy + 1 < h && 0 < |line| <= w && 0x0A !in line
    ensures Type(k, w, h, scroll, attr, line + rest) ==
      Type(Caret(Laid(k.buf, (k.cy + 1) * w, line, attr), |line|, k.cy + 1), w, h, scroll, attr, rest)
  {
    var k0 := Caret(k.buf, 0, k.cy + 1);
    TypeLine(k0, w, h, scroll, attr, line, rest);
    assert Wrap(k, w, h, scroll) == k0 == Wrap(k0, w, h, scroll);
  }

  // Behind the last row nothing is typed any more, unless the window scrolls: then
  // the text goes on at the start of the last row, over what is there.
  lemma TypeBelow(k: Caret, w: nat, h: nat, attr: byte, text: seq<byte>)
    requires w >= 1 && h >= 1 && |k.buf| == w * h && (k.cy >= h || (k.cy + 1 >= h && k.cx >= w))
    ensures Type(k, w, h, false, attr, text).buf == k.buf
    decreases |text|
  {
    if text != [] && text[0] == 0x0A { TypeBelow(Caret(k.buf, 0, k.cy + 1), w, h, attr, text[1..]); }
  }

  lemma TypeOver(k: Caret, w: nat, h: nat, attr: byte, line: seq<byte>)
    requires w >= 1 && h >= 1 && |k.buf| == w * h && k.cy + 1 == h && k.cx <= w && |line| <= w && 0x0A !in line
    ensures Type(k, w, h, true, attr, [0x0A] + line).buf == Laid(k.buf, (h - 1) * w, line, attr)
    ensures k.cx == w ==> Type(k, w, h, true, attr, line).buf == Laid(k.buf, (h - 1) * w, line, attr)
  {
    var k0 := Caret(k.buf, 0, h - 1);
    assert ([0x0A] + line)[1..] == line && line + [] == line;
    TypeLine(k0, w, h, true, attr, line, []);
    if k.cx == w {
      if line == [] {
        assert Laid(k.buf, (h - 1) * w, line, attr) == k.buf;
      } else {
        assert Wrap(k, w, h, true) == k0 == Wrap(k0, w, h, true);
      }
    }
  }

  // ---- from the text to the terminal ----

  // The characters of the lines can be seen, and each line fits its row.
  ghost predicate Fitting(lines: seq<seq<byte>>, cx: nat, cy: nat, w: nat, h: nat) {
    && lines != [] && cx + |lines[0]| <= w && cy + |lines| <= h
    && forall j | 0 <= j < |lines| :: |lines[j]| <= w && forall i | 0 <= i < |lines[j]| :: 0x20 <= lines[j][i] < 0x7F
  }

  // ---- the picture ----

  predicate Over(p: Pane, r: nat, c: nat) { p.y <= r < p.y + p.h && p.x <= c < p.x + p.w }

  // Of the windows over a cell the last one is seen; where none is, a blank in
  // white on black.
  lemma {:induction false} Topmost(ps: seq<Pane>, k: nat, r: nat, c: nat)
    requires k < |ps| && Over(ps[k], r, c) && forall j | k < j < |ps| :: !Over(ps[j], r, c)
    requires forall p | p in ps :: PaneOk(p)
    ensures 0 <= (r - ps[k].y) * ps[k].w + (c - ps[k].x) < |ps[k].buf|
    ensures Painted(ps, r, c) == ps[k].buf[(r - ps[k].y) * ps[k].w + (c - ps[k].x)]
    decreases |ps|
  {
    if k < |ps| - 1 {
      assert !Over(ps[|ps| - 1], r, c);
      Topmost(ps[..|ps| - 1], k, r, c);
    } else {
      assert ps[k] in ps && Covers(ps[k], r, c);
      Inside(ps[k].w, ps[k].h, r - ps[k].y, c - ps[k].x);
    }
  }

  lemma {:induction false} NoneThere(ps: seq<Pane>, r: nat, c: nat)
    requires forall p | p in ps :: PaneOk(p) && !Over(p, r, c)
    ensures Painted(ps, r, c) == Cell(0x20, 0x0F)
    decreases |ps|
  {
    if ps != [] {
      assert ps[|ps| - 1] in ps && !Covers(ps[|ps| - 1], r, c);
      NoneThere(ps[..|ps| - 1], r, c);
    }
  }

  // After typing into the topmost window: what the picture holds.
  lemma LinesPainted(below: seq<Pane>, p: Pane, p': Pane, k: Caret, attr: byte, lines: seq<seq<byte>>, r: nat, c: nat)
    requires p.w >= 1 && p.h >= 1 && PaneOk(p) && p' == p.(buf := p'.buf) && |p'.buf| == |p.buf|
    requires (forall q | q in below :: PaneOk(q)) && k.buf == p.buf && Fitting(lines, k.cx, k.cy, p.w, p.h)
    requires Lined(k, p'.buf, p.w, p.h, attr, lines)
    ensures (forall q | q in below + [p] :: PaneOk(q)) && forall q | q in below + [p'] :: PaneOk(q)
    ensures var was, now := Painted(below + [p], r, c), Painted(below + [p'], r, c); now == was || 0x20 <= now.ch < 0x7F
    ensures var row, col := r - p.y, c - p.x;
            0 <= row < p.h && 0 <= col < p.w && k.cy <= row < k.cy + |lines|
              && Start(k, row - k.cy) <= col < Start(k, row - k.cy) + |lines[row - k.cy]| ==>
            Painted(below + [p'], r, c) == Cell(lines[row - k.cy][col - Start(k, row - k.cy)], attr)
  {
    var ps, ps' := below + [p], below + [p'];
    assert ps[..|ps| - 1] == below && ps'[..|ps'| - 1] == below;
    if Covers(p, r, c) {
      Inside(p.w, p.h, r - p.y, c - p.x);
      assert LineCell(k, p'.buf, p.w, p.h, attr, lines, r - p.y, c - p.x);
    }
  }

  // The window shows p afterwards, with the lines typed from caret k on.
  ghost predicate Typed(p: Pane, p': Pane, k: Caret, attr: byte, lines: seq<seq<byte>>) {
    && p.w >= 1 && p.h >= 1 && PaneOk(p) && p' == p.(buf := p'.buf) && |p'.buf| == |p.buf|
    && k.buf == p.buf && Fitting(lines, k.cx, k.cy, p.w, p.h) && Lined(k, p'.buf, p.w, p.h, attr, lines)
  }

  lemma LinesClean(below: seq<Pane>, p: Pane, p': Pane, k: Caret, attr: byte, lines: seq<seq<byte>>)
    requires Typed(p, p', k, attr, lines) && (forall q | q in below + [p] :: PaneOk(q)) && CleanPicture(below + [p])
    ensures (forall q | q in below + [p'] :: PaneOk(q)) && CleanPicture(below + [p'])
  {
    hide Painted, LineCell;
    assert forall q | q in below :: q in below + [p];
    LinesPainted(below, p, p', k, attr, lines, 0, 0);
    forall r: nat, c: nat | r < ROWS && c < COLS
      ensures Painted(below + [p'], r, c).ch != 9 && Painted(below + [p'], r, c).ch != 0x7F
    {
      assert CleanRow(below + [p], r);
      LinesPainted(below, p, p', k, attr, lines, r, c);
    }
  }

  // Where character i of line j is on the screen.
  function Place(p: Pane, k: Caret, j: nat, i: nat): int {
    80 * (p.y + k.cy + j) + p.x + (if j == 0 then k.cx else 0) + i
  }

  // Character ch is there, in the colours of attr unless it is a blank.
  ghost predicate CharAt(screen: seq<Glyph>, at: int, ch: byte, fg: int, bg: int) {
    && 0 <= at < |screen| && screen[at].ch == ch as int
    && (ch != 0x20 ==> screen[at].fg == fg && screen[at].bg == bg)
  }

  lemma SeenAt(screen: seq<Glyph>, ps: seq<Pane>, r: nat, c: nat)
    requires (forall p | p in ps :: PaneOk(p)) && Seen(screen, ps) && r < 25 && c < 80
    ensures |screen| == 2000
    ensures var cell, g := Painted(ps, r, c), screen[80 * r + c];
            && g.ch == (if 0x20 <= cell.ch < 0x7F then cell.ch else 0x20)
            && (0x20 < cell.ch < 0x7F ==> g.fg == cell.attr % 16 && g.bg == cell.attr / 16)
  {
    hide Painted;
  }

  lemma CharPainted(below: seq<Pane>, p: Pane, p': Pane, k: Caret, attr: byte, lines: seq<seq<byte>>, j: nat, i: nat)
    requires Typed(p, p', k, attr, lines) && (forall q | q in below + [p'] :: PaneOk(q))
    requires 0 <= p.x && 0 <= p.y && j < |lines| && i < |lines[j]|
    ensures Painted(below + [p'], p.y + k.cy + j, p.x + Start(k, j) + i) == Cell(lines[j][i], attr)
    ensures 0x20 <= lines[j][i] < 0x7F && k.cy + j < p.h && Start(k, j) + i < p.w
  {
    hide Painted, LineCell;
    assert forall q | q in below :: q in below + [p'];
    LinesPainted(below, p, p', k, attr, lines, p.y + k.cy + j, p.x + Start(k, j) + i);
  }

  lemma LineShown(screen: seq<Glyph>, below: seq<Pane>, p: Pane, p': Pane, k: Caret, fg: nat, bg: nat,
                  lines: seq<seq<byte>>, j: nat, i: nat)
    requires fg < 16 && bg < 16 && Typed(p, p', k, 16 * bg + fg, lines) && (forall q | q in below + [p'] :: PaneOk(q))
    requires Seen(screen, below + [p']) && 0 <= p.x && p.x + p.w <= 80 && 0 <= p.y && p.y + p.h <= 25
    requires j < |lines| && i < |lines[j]|
    ensures CharAt(screen, Place(p, k, j, i), lines[j][i], fg, bg)
  {
    hide Painted, Seen, Typed;
    var row, col := p.y + k.cy + j, p.x + Start(k, j) + i;
    CharPainted(below, p, p', k, 16 * bg + fg, lines, j, i);
    SeenAt(screen, below + [p'], row, col);
  }

  // Lines of text typed into the topmost window, which lies on the screen: after the
  // refresh the terminal shows each character in its place, in the window's colours.
  method ShowLines(s: Screen, win: Window, lines: seq<seq<byte>>)
    requires s.Valid() && s.WindowsOk() && s.InStep() && CleanPicture(s.Panes())
    requires s.windows != [] && s.windows[|s.windows| - 1] == win
    requires forall k | 0 <= k < |s.windows| - 1 :: s.windows[k] != win && s.windows[k].buf != win.buf
    requires 0 <= win.x && win.x + win.w <= 80 && 0 <= win.y && win.y + win.h <= 25
    requires Fitting(lines, win.cx, win.cy, win.w, win.h)
    modifies win.buf, win`cx, win`cy, s.composite, s.phys, s`output
    ensures s.Valid() && s.WindowsOk() && s.InStep() && CleanPicture(s.Panes())
    ensures forall j: nat, i: nat | j < |lines| && i < |lines[j]| ::
      CharAt(s.Shows().screen, Place(old(win.View()), old(win.Here()), j, i), lines[j][i], win.fg, win.bg)
  {
    hide Painted, LineCell, Type, Seen, CleanPicture, CharAt, Fitting, Laid, IsPicture, InSync, RowSync, RowClean,
         CleanRow, RowShown, Feed;
    ghost var ps, n := s.Panes(), |s.windows| - 1;
    ghost var k, p, fg, bg := win.Here(), win.View(), win.fg, win.bg;
    assert ps == ps[..n] + [p];
    FittingParts(lines, k.cx, k.cy, win.w, win.h);
    TypeLines(k, win.w, win.h, win.scroll, 16 * bg + fg, lines);
    win.AddStr(Joined(lines));
    ghost var p' := win.View();
    assert s.Panes() == ps[..n] + [p'];
    LinesClean(ps[..n], p, p', k, 16 * bg + fg, lines);
    s.Refresh();
    forall j: nat, i: nat | j < |lines| && i < |lines[j]|
      ensures CharAt(s.Shows().screen, Place(p, k, j, i), lines[j][i], fg, bg)
    {
      LineShown(s.Shows().screen, ps[..n], p, p', k, fg, bg, lines, j, i);
    }
  }

  lemma FittingParts(lines: seq<seq<byte>>, cx: nat, cy: nat, w: nat, h: nat)
    requires Fitting(lines, cx, cy, w, h)
    ensures lines != [] && cx + |lines[0]| <= w && cy + |lines| <= h
    ensures forall j | 0 <= j < |lines| :: |lines[j]| <= w && 0x0A !in lines[j]
  {
  }
}
