/**
  Windows painted over one another, and a repaint that sends only the rows that
  changed since the last one.
 */
module Tui {
  import opened Bytes
  import opened Terminal

  datatype Cell = Cell(ch: byte, attr: byte)

  const BLANK := Cell(0x20, 0x0F)
  const CELLS: nat := 2000

  function MkAttr(fg: nat, bg: nat): byte
    requires fg < 16 && bg < 16
  {
    16 * bg + fg
  }

  function Fg(c: Cell): nat { c.attr % 16 }
  function Bg(c: Cell): nat { c.attr / 16 }

  // char is signed here: bytes from 0x80 on are below 0x20 too. A tab is sent as it is.
  function Shown(ch: byte): byte {
    if (ch < 0x20 || ch >= 0x80) && ch != 9 then 0x20 else ch
  }

  // ---- painting windows ----

  // A window as a value.
  datatype Pane = Pane(x: int, y: int, w: nat, h: nat, buf: seq<Cell>)

  predicate PaneOk(p: Pane) { |p.buf| == p.w * p.h }

  predicate Covers(p: Pane, r: nat, c: nat) {
    p.y <= r < p.y + p.h && p.x <= c < p.x + p.w
  }

  lemma Inside(w: nat, h: nat, row: nat, col: nat)
    requires row < h && col < w
    ensures 0 <= row * w + col < w * h
  {
    assert (row + 1) * w <= h * w;
  }

  function CellAt(p: Pane, r: nat, c: nat): Cell
    requires PaneOk(p) && Covers(p, r, c)
  {
    Inside(p.w, p.h, r - p.y, c - p.x);
    p.buf[(r - p.y) * p.w + (c - p.x)]
  }

  // The picture: the last window that covers a cell gives it.
  function Painted(ps: seq<Pane>, r: nat, c: nat): Cell
    requires forall p | p in ps :: PaneOk(p)
  {
    if ps == [] then BLANK
    else if Covers(ps[|ps| - 1], r, c) then CellAt(ps[|ps| - 1], r, c)
    else Painted(ps[..|ps| - 1], r, c)
  }

  // ---- closing a window ----

  ghost predicate Covered(ps: seq<Pane>, r: nat, c: nat) {
    exists p | p in ps :: Covers(p, r, c)
  }

  lemma {:induction false} PaintedOver(a: seq<Pane>, b: seq<Pane>, r: nat, c: nat)
    requires forall p | p in a + b :: PaneOk(p)
    ensures forall p | p in a :: p in a + b
    ensures forall p | p in b :: p in a + b
    ensures Painted(a + b, r, c) == if Covered(b, r, c) then Painted(b, r, c) else Painted(a, r, c)
    decreases |b|
  {
    if b == [] {
      assert a + b == a;
    } else {
      var n := |b| - 1;
      assert b == b[..n] + [b[n]];
      assert (a + b)[..|a + b| - 1] == a + b[..n];
      PaintedOver(a, b[..n], r, c);
    }
  }

  // tui_win_close fills the gap with the last window.
  function Closed<T>(ws: seq<T>, i: nat): seq<T>
    requires i < |ws|
  {
    var n := |ws| - 1;
    if i == n then ws[..n] else ws[..n][i := ws[n]]
  }

  // So the last window drops below those after the closed one. A cell looks as if
  // the window had just been taken out, exactly if no such window is in the way.
  lemma ClosedLooks(ps: seq<Pane>, i: nat, r: nat, c: nat)
    requires i < |ps| - 1 && forall p | p in ps :: PaneOk(p)
    ensures var n := |ps| - 1; var last, between := ps[n], ps[i + 1..n];
            && (forall p | p in Closed(ps, i) + (ps[..i] + ps[i + 1..]) + between :: PaneOk(p))
            && (Painted(Closed(ps, i), r, c) == Painted(ps[..i] + ps[i + 1..], r, c)
                <==> !(Covers(last, r, c) && Covered(between, r, c)) || CellAt(last, r, c) == Painted(between, r, c))
  {
    hide Painted, Covers, PaneOk;
    var n := |ps| - 1;
    var last, below, between := ps[n], ps[..i], ps[i + 1..n];
    ClosedParts(ps, i);
    PaintedOver(below + [last], between, r, c);
    PaintedOver(below, [last], r, c);
    PaintedOver(below + between, [last], r, c);
    PaintedOver(below, between, r, c);
    PaintedLast(last, r, c);
  }

  lemma ClosedParts(ps: seq<Pane>, i: nat)
    requires i < |ps| - 1 && forall p | p in ps :: PaneOk(p)
    ensures var n := |ps| - 1; var last, below, between := ps[n], ps[..i], ps[i + 1..n];
            && Closed(ps, i) == (below + [last]) + between && below + ps[i + 1..] == (below + between) + [last]
            && forall p | p in (below + between) + [last] || p in (below + [last]) + between
                             || p in below + between || p in below + [last]
                 :: PaneOk(p)
  {
    var n := |ps| - 1;
    var last, below, between := ps[n], ps[..i], ps[i + 1..n];
    assert below + ps[i + 1..] == (below + between) + [last];
    assert forall p | p in below || p in between || p == last :: p in ps;
  }

  lemma PaintedLast(p: Pane, r: nat, c: nat)
    requires PaneOk(p)
    ensures p in [p] && (Covered([p], r, c) <==> Covers(p, r, c))
    ensures Covers(p, r, c) ==> Painted([p], r, c) == CellAt(p, r, c)
  {
    assert p in [p] && [p][..0] == [];
  }

  ghost predicate IsPicture(cells: seq<Cell>, ps: seq<Pane>) {
    && |cells| == CELLS && (forall p | p in ps :: PaneOk(p))
    && forall r: nat, c: nat | r < ROWS && c < COLS :: cells[At(r, c)] == Painted(ps, r, c)
  }

  // ---- what the screen should show ----

  // Some cell of row r from column c on is not blank.
  ghost predicate Inked(cells: seq<Cell>, r: nat, c: nat)
    requires |cells| == CELLS && r < ROWS
  {
    exists d: nat :: c <= d < COLS && Shown(cells[At(r, d)].ch) != 0x20
  }

  ghost predicate GlyphOk(screen: seq<Glyph>, cells: seq<Cell>, r: nat, c: nat)
    requires |screen| == |cells| == CELLS && r < ROWS && c < COLS
  {
    var g, cell := screen[At(r, c)], cells[At(r, c)];
    g.ch == Shown(cell.ch) && (Inked(cells, r, c) ==> g.fg == Fg(cell) && g.bg == Bg(cell))
  }

  ghost predicate RowSync(screen: seq<Glyph>, cells: seq<Cell>, r: nat)
    requires |screen| == |cells| == CELLS && r < ROWS
  {
    forall c: nat | c < COLS :: GlyphOk(screen, cells, r, c)
  }

  // Every character, and the colours up to the last one of each row that is not blank.
  ghost predicate InSync(screen: seq<Glyph>, cells: seq<Cell>) {
    |screen| == |cells| == CELLS && forall r: nat | r < ROWS :: RowSync(screen, cells, r)
  }

  // No cell of the row holds a tab or a delete, which the terminal takes for itself.
  ghost predicate RowClean(cells: seq<Cell>, r: nat)
    requires |cells| == CELLS && r < ROWS
  {
    forall c: nat | c < COLS :: cells[At(r, c)].ch != 9 && cells[At(r, c)].ch != 0x7F
  }

  // What a refresh makes of row r, painted as `was` and to show `now`: it is shown
  // if it is clean, and was in step or is repainted.
  ghost predicate RowShown(screen: seq<Glyph>, was: seq<Cell>, now: seq<Cell>, r: nat)
    requires |screen| == |was| == |now| == CELLS && r < ROWS
  {
    RowClean(now, r) && (RowSync(screen, was, r) || was[At(r, 0)..At(r, COLS)] != now[At(r, 0)..At(r, COLS)])
  }

  ghost predicate CleanRow(ps: seq<Pane>, r: nat)
    requires forall p | p in ps :: PaneOk(p)
  {
    forall c: nat | c < COLS :: Painted(ps, r, c).ch != 9 && Painted(ps, r, c).ch != 0x7F
  }

  ghost predicate CleanPicture(ps: seq<Pane>)
    requires forall p | p in ps :: PaneOk(p)
  {
    forall r: nat | r < ROWS :: CleanRow(ps, r)
  }

  lemma PictureClean(cells: seq<Cell>, ps: seq<Pane>, r: nat)
    requires IsPicture(cells, ps) && r < ROWS
    ensures RowClean(cells, r) <==> CleanRow(ps, r)
  {
    forall c: nat | c < COLS ensures Painted(ps, r, c) == cells[At(r, c)] { }
  }

  // The screen shows the picture of the windows ps: every graphic character as it
  // is, blanks for all else, and the colours of every cell up to the last
  // character of its row that is not blank.
  ghost predicate Seen(screen: seq<Glyph>, ps: seq<Pane>)
    requires forall p | p in ps :: PaneOk(p)
  {
    && |screen| == 2000
    && (forall r: nat, c: nat | r < 25 && c < 80 ::
          var ch := Painted(ps, r, c).ch; screen[80 * r + c].ch == if 0x20 <= ch < 0x7F then ch else 0x20)
    && forall r: nat, c: nat, d: nat | r < 25 && c <= d < 80 && 0x20 < Painted(ps, r, d).ch < 0x7F ::
         var a := Painted(ps, r, c).attr; screen[80 * r + c].fg == a % 16 && screen[80 * r + c].bg == a / 16
  }

  // What it means that a clean row is shown, byte by byte.
  lemma CellSeen(screen: seq<Glyph>, cells: seq<Cell>, r: nat, c: nat, d: nat)
    requires |screen| == |cells| == CELLS && r < ROWS && c <= d < COLS
    requires RowSync(screen, cells, r) && RowClean(cells, r)
    ensures var ch := cells[80 * r + c].ch; screen[80 * r + c].ch == if 0x20 <= ch < 0x7F then ch else 0x20
    ensures var a := cells[80 * r + c].attr; 0x20 < cells[80 * r + d].ch < 0x7F ==>
      screen[80 * r + c].fg == a % 16 && screen[80 * r + c].bg == a / 16
  {
    assert GlyphOk(screen, cells, r, c) && At(r, c) == 80 * r + c && At(r, d) == 80 * r + d;
    CellClean(cells, r, c);
    if 0x20 < cells[80 * r + d].ch < 0x7F {
      assert Shown(cells[At(r, d)].ch) != 0x20;
      assert Inked(cells, r, c);
    }
  }

  lemma PictureSeen(screen: seq<Glyph>, cells: seq<Cell>, ps: seq<Pane>)
    requires IsPicture(cells, ps) && InSync(screen, cells) && CleanPicture(ps)
    ensures Seen(screen, ps)
  {
    hide Painted, RowSync, RowClean;
    forall r: nat, c: nat, d: nat | r < 25 && c <= d < 80
      ensures var ch := Painted(ps, r, c).ch; screen[80 * r + c].ch == if 0x20 <= ch < 0x7F then ch else 0x20
      ensures var a := Painted(ps, r, c).attr; 0x20 < Painted(ps, r, d).ch < 0x7F ==>
        screen[80 * r + c].fg == a % 16 && screen[80 * r + c].bg == a / 16
    {
      PictureClean(cells, ps, r);
      CellSeen(screen, cells, r, c, d);
      assert cells[At(r, c)] == Painted(ps, r, c) && cells[At(r, d)] == Painted(ps, r, d);
    }
    forall r: nat, c: nat | r < 25 && c < 80
      ensures var ch := Painted(ps, r, c).ch; screen[80 * r + c].ch == if 0x20 <= ch < 0x7F then ch else 0x20
    {
      assert c <= c < 80;
    }
  }

  // Everything on the screen can be seen.
  ghost predicate AllGraphic(screen: seq<Glyph>) {
    forall i | 0 <= i < |screen| :: Graphic(screen[i].ch)
  }

  // So a screen never shows a tab or a delete.
  lemma SyncIsClean(screen: seq<Glyph>, cells: seq<Cell>, r: nat)
    requires |screen| == |cells| == CELLS && r < ROWS && RowSync(screen, cells, r) && AllGraphic(screen)
    ensures RowClean(cells, r)
  {
    forall c: nat | c < COLS ensures cells[At(r, c)].ch != 9 && cells[At(r, c)].ch != 0x7F {
      assert GlyphOk(screen, cells, r, c);
      assert Graphic(screen[At(r, c)].ch);
    }
  }

  // What is sent for a cell never begins a control function, and changes nothing
  // outside the row.
  lemma ShownStep(t: Term, ch: byte)
    requires TermOk(t) && t.mode == Ground && AllGraphic(t.screen)
    ensures var u := Step(t, Shown(ch));
            && TermOk(u) && u.mode == Ground && AllGraphic(u.screen) && u.fg == t.fg && u.bg == t.bg
            && u.row == t.row && OnlyRow(t.screen, u.screen, t.row)
  {
  }

  lemma EraseGraphic(t: Term)
    requires TermOk(t) && AllGraphic(t.screen)
    ensures AllGraphic(EraseLine(t).screen) && EraseLine(t).mode == t.mode
    ensures OnlyRow(t.screen, EraseLine(t).screen, t.row)
  {
    var u := EraseLine(t).screen;
    forall i | 0 <= i < |u| && !(At(t.row, 0) <= i < At(t.row, COLS)) ensures u[i] == t.screen[i] {
      assert At(t.row, 0) <= At(t.row, t.col);
    }
  }

  lemma OnlyThen<T>(a: seq<T>, b: seq<T>, c: seq<T>, r: nat)
    requires OnlyRow(a, b, r) && OnlyRow(b, c, r)
    ensures OnlyRow(a, c, r)
  {
  }

  // A tab is not shown: it moves what follows it to the next tab stop.
  lemma TabMoves(t: Term)
    requires TermOk(t) && t.mode == Ground && t.col == 0
    ensures var u := Feed(t, [9, 0x41]);
            u.screen[At(t.row, 8)].ch == 0x41 && u.screen[At(t.row, 1)] == t.screen[At(t.row, 1)]
  {
    FeedOne(t, [], 9);
    FeedOne(t, [9], 0x41);
    assert [] + [9] == [9] && [9] + [0x41] == [9, 0x41];
  }

  // The tables agree outside row r.
  ghost predicate OnlyRow<T>(s: seq<T>, s': seq<T>, r: nat) {
    |s| == |s'| && forall i | 0 <= i < |s| && !(At(r, 0) <= i < At(r, COLS)) :: s'[i] == s[i]
  }

  // So in another row the screen shows what it showed.
  lemma OtherRow(screen: seq<Glyph>, screen': seq<Glyph>, cells: seq<Cell>, cells': seq<Cell>, row: nat, r: nat)
    requires |screen| == |cells| == CELLS && OnlyRow(screen, screen', row) && OnlyRow(cells, cells', row)
    requires row < ROWS && r < ROWS && r != row
    ensures RowSync(screen', cells', r) <==> RowSync(screen, cells, r)
  {
    forall c: nat | c < COLS
      ensures screen'[At(r, c)] == screen[At(r, c)] && cells'[At(r, c)] == cells[At(r, c)]
    {
    }
    forall c: nat | c < COLS ensures GlyphOk(screen', cells', r, c) <==> GlyphOk(screen, cells, r, c) {
      assert Inked(cells', r, c) <==> Inked(cells, r, c);
    }
  }

  // The first n cells of the row are on the screen, and nothing else changed.
  ghost predicate RowPainted(before: seq<Glyph>, screen: seq<Glyph>, cells: seq<Cell>, row: nat, n: nat)
    requires |cells| == CELLS && row < ROWS && n <= COLS
  {
    && |screen| == |before| == CELLS && OnlyRow(before, screen, row)
    && forall d: nat | d < n :: screen[At(row, d)] == Painting(cells[At(row, d)])
  }

  function Painting(cell: Cell): Glyph { Glyph(Shown(cell.ch), Fg(cell), Bg(cell)) }

  lemma PaintCell(before: seq<Glyph>, t: Term, cells: seq<Cell>, row: nat, c: nat)
    requires |cells| == CELLS && row < ROWS && c < COLS
    requires cells[At(row, c)].ch != 9 && cells[At(row, c)].ch != 0x7F
    requires TermOk(t) && t.mode == Ground && t.row == row && t.col == c && RowPainted(before, t.screen, cells, row, c)
    requires t.fg == Fg(cells[At(row, c)]) && t.bg == Bg(cells[At(row, c)])
    ensures var u := Step(t, Shown(cells[At(row, c)].ch));
            && TermOk(u) && u.mode == Ground && u.row == row && u.col == c + 1 && u.fg == t.fg && u.bg == t.bg
            && RowPainted(before, u.screen, cells, row, c + 1)
  {
    assert Graphic(Shown(cells[At(row, c)].ch));
  }

  // Past column n the row holds blanks only.
  ghost predicate BlankFrom(cells: seq<Cell>, row: nat, n: nat)
    requires |cells| == CELLS && row < ROWS
  {
    forall d: nat | n <= d < COLS :: cells[At(row, d)].ch == 0x20
  }

  lemma EndRow(before: seq<Glyph>, t: Term, cells: seq<Cell>, row: nat, n: nat)
    requires |cells| == CELLS && row < ROWS && n <= COLS && BlankFrom(cells, row, n)
    requires TermOk(t) && t.row == row && t.col == n && RowPainted(before, t.screen, cells, row, n)
    ensures var u := if n < COLS then EraseLine(t) else t;
            TermOk(u) && u.mode == t.mode && OnlyRow(before, u.screen, row) && RowSync(u.screen, cells, row)
  {
    var u := if n < COLS then EraseLine(t) else t;
    forall c: nat | c < COLS ensures GlyphOk(u.screen, cells, row, c) {
      if c < n { assert u.screen[At(row, c)] == Painting(cells[At(row, c)]); }
    }
  }

  // ---- typing into a window ----

  const NEWLINE: byte := 10

  // What tui_win_addstr works on, in a window of w by h cells.
  datatype Caret = Caret(buf: seq<Cell>, cx: nat, cy: nat)

  // The caret at the end of a line goes to the next one.
  function Wrap(k: Caret, w: nat, h: nat, scroll: bool): Caret
    requires w >= 1 && h >= 1
  {
    var cy := if k.cx >= w then k.cy + 1 else k.cy;
    Caret(k.buf, if k.cx >= w then 0 else k.cx, if cy >= h && scroll then h - 1 else cy)
  }

  // tui_win_addch at a caret inside the window.
  function Put(k: Caret, w: nat, h: nat, cell: Cell): (r: Caret)
    requires |k.buf| == w * h && k.cx < w && k.cy < h
    ensures |r.buf| == w * h
  {
    Inside(w, h, k.cy, k.cx);
    Caret(k.buf[k.cy * w + k.cx := cell], k.cx + 1, k.cy)
  }

  // tui_win_addstr: text that finds no room is dropped.
  function Type(k: Caret, w: nat, h: nat, scroll: bool, attr: byte, text: seq<byte>): (r: Caret)
    requires w >= 1 && h >= 1 && |k.buf| == w * h
    ensures |r.buf| == w * h
    decreases |text|
  {
    if text == [] then k
    else if text[0] == NEWLINE then
      Type(Caret(k.buf, 0, if k.cy + 1 >= h && scroll then h - 1 else k.cy + 1), w, h, scroll, attr, text[1..])
    else
      var k1 := Wrap(k, w, h, scroll);
      if k1.cy >= h then k1
      else Type(Put(k1, w, h, Cell(text[0], attr)), w, h, scroll, attr, text[1..])
  }

  // One character of the text.
  lemma TypeNext(k: Caret, w: nat, h: nat, scroll: bool, attr: byte, text: seq<byte>, i: nat)
    requires w >= 1 && h >= 1 && |k.buf| == w * h && i <= |text|
    ensures i == |text| ==> Type(k, w, h, scroll, attr, text[i..]) == k
    ensures var k0 := Caret(k.buf, 0, if k.cy + 1 >= h && scroll then h - 1 else k.cy + 1);
            i < |text| && text[i] == NEWLINE ==>
              Type(k, w, h, scroll, attr, text[i..]) == Type(k0, w, h, scroll, attr, text[i + 1..])
    ensures var k1 := Wrap(k, w, h, scroll);
            i < |text| && text[i] != NEWLINE && k1.cy >= h ==> Type(k, w, h, scroll, attr, text[i..]) == k1
    ensures var k1 := Wrap(k, w, h, scroll); i < |text| && text[i] != NEWLINE && k1.cy < h ==>
      Type(k, w, h, scroll, attr, text[i..]) ==
        Type(Put(k1, w, h, Cell(text[i], attr)), w, h, scroll, attr, text[i + 1..])
  {
    if i < |text| { assert text[i..][1..] == text[i + 1..]; }
  }

  // A text without line ends that fits lies in the cells from the caret on,
  // whatever the width, and nothing else changes.
  lemma {:induction false} TypeFits(k: Caret, w: nat, h: nat, scroll: bool, attr: byte, text: seq<byte>, at: nat)
    requires w >= 1 && h >= 1 && |k.buf| == w * h && k.cx <= w && k.cy < h && at == k.cy * w + k.cx
    requires at + |text| <= w * h && NEWLINE !in text
    ensures var r := Type(k, w, h, scroll, attr, text).buf;
            |r| == w * h && forall i | 0 <= i < w * h ::
              r[i] == if at <= i < at + |text| then Cell(text[i - at], attr) else k.buf[i]
    decreases |text|
  {
    if text != [] {
      var k1 := Wrap(k, w, h, scroll);
      WrapPlace(k.cx, k.cy, w, h);
      assert k1.cy < h && k1.cx < w && k1.cy * w + k1.cx == at;
      var k2 := Caret(k.buf[at := Cell(text[0], attr)], k1.cx + 1, k1.cy);
      TypeFits(k2, w, h, scroll, attr, text[1..], at + 1);
    }
  }

  lemma WrapPlace(cx: nat, cy: nat, w: nat, h: nat)
    requires cx <= w && cy < h && cy * w + cx < w * h
    ensures cx == w ==> cy + 1 < h && (cy + 1) * w + 0 == cy * w + cx
  {
    assert (cy + 1) * w == cy * w + w;
    if cy + 1 >= h { assert cy + 1 == h; }
  }

  // ---- windows and screen in place ----

  class Window {
    var x: int
    var y: int
    var w: nat
    var h: nat
    var cx: nat
    var cy: nat
    var fg: nat
    var bg: nat
    var scroll: bool
    var buf: array<Cell>

    ghost predicate Valid()
      reads this
    {
      w >= 1 && h >= 1 && buf.Length == w * h && fg < 16 && bg < 16
    }

    ghost function View(): Pane
      reads this, buf
    {
      Pane(x, y, w, h, buf[..])
    }

    // tui_win_new, without the list entry
    constructor (x: int, y: int, w: nat, h: nat, scroll: bool)
      requires w >= 1 && h >= 1
      ensures Valid() && fresh(buf) && View() == Pane(x, y, w, h, seq(w * h, _ => Cell(0x20, 0x0F)))
      ensures cx == 0 && cy == 0 && fg == 15 && bg == 0 && this.scroll == scroll
    {
      this.x, this.y, this.w, this.h := x, y, w, h;
      cx, cy, fg, bg := 0, 0, 15, 0;
      this.scroll := scroll;
      buf := new Cell[w * h](_ => BLANK);
      new;
      assert buf[..] == seq(w * h, _ => BLANK);
    }

    method Move(x: int, y: int)
      modifies `x, `y
      ensures View() == old(View()).(x := x, y := y)
    {
      this.x, this.y := x, y;
    }

    // tui_win_color
    method SetColour(fg: int, bg: int)
      requires Valid()
      modifies `fg, `bg
      ensures Valid() && this.fg == fg % 16 && this.bg == bg % 16
    {
      this.fg, this.bg := fg % 16, bg % 16;
    }

    // tui_win_addch
    method AddCh(ch: byte)
      requires Valid()
      modifies buf, `cx
      ensures Valid()
      ensures old(cx) >= w || cy >= h ==> View() == old(View()) && cx == old(cx)
      ensures old(cx) < w && cy < h ==> cx == old(cx) + 1 && 0 <= cy * w + old(cx) < |old(View()).buf|
      ensures old(cx) < w && cy < h ==>
        View() == old(View()).(buf := old(View()).buf[cy * w + old(cx) := Cell(ch, 16 * bg + fg)])
    {
      if cx >= w || cy >= h { return; }
      Inside(w, h, cy, cx);
      buf[cy * w + cx] := Cell(ch, MkAttr(fg, bg));
      cx := cx + 1;
    }

    ghost function Here(): Caret
      reads this, buf
    {
      Caret(buf[..], cx, cy)
    }

    // A turn of the loop of tui_win_addstr: one character, if there is room for it.
    method PutNext(ch: byte) returns (room: bool)
      requires Valid()
      modifies buf, `cx, `cy
      ensures Valid() && (room <==> Wrap(old(Here()), w, h, scroll).cy < h)
      ensures Here() ==
        if room then Put(Wrap(old(Here()), w, h, scroll), w, h, Cell(ch, 16 * bg + fg))
        else Wrap(old(Here()), w, h, scroll)
    {
      if cx >= w { cx, cy := 0, cy + 1; }
      if cy >= h {
        if scroll { cy := h - 1; } else { return false; }
      }
      AddCh(ch);
      room := true;
    }

    // tui_win_addstr
    method AddStr(text: seq<byte>)
      requires Valid()
      modifies buf, `cx, `cy
      ensures Valid() && Here() == Type(old(Here()), w, h, scroll, 16 * bg + fg, text)
    {
      hide Type;
      ghost var k0, a := Here(), MkAttr(fg, bg);
      assert text[0..] == text;
      var i := 0;
      while i < |text|
        invariant 0 <= i <= |text| && Valid()
        invariant Type(Here(), w, h, scroll, a, text[i..]) == Type(k0, w, h, scroll, a, text)
      {
        TypeNext(Here(), w, h, scroll, a, text, i);
        ghost var k := Here();
        if text[i] == NEWLINE {
          cx := 0;
          cy := cy + 1;
          if cy >= h && scroll { cy := h - 1; }
          assert Here() == Caret(k.buf, 0, if k.cy + 1 >= h && scroll then h - 1 else k.cy + 1);
          i := i + 1;
          continue;
        }
        var room := PutNext(text[i]);
        if !room { break; }
        i := i + 1;
      }
      TypeNext(Here(), w, h, scroll, a, text, i);
    }

    // tui_win_gotoxy: the caret stays inside the window.
    method GotoXY(y: int, x: int)
      requires Valid()
      modifies `cx, `cy
      ensures Valid() && cx < w && cy < h
      ensures (0 <= x < w ==> cx == x) && (x < 0 ==> cx == 0) && (x >= w ==> cx == w - 1)
      ensures (0 <= y < h ==> cy == y) && (y < 0 ==> cy == 0) && (y >= h ==> cy == h - 1)
    {
      cx := if x < 0 then 0 else if x >= w then w - 1 else x;
      cy := if y < 0 then 0 else if y >= h then h - 1 else y;
    }
  }

  lemma ColourParts(fg: nat, bg: nat)
    requires fg < 16 && bg < 16
    ensures AnsiFg(fg) == (if fg >= 8 then 90 + fg % 8 else 30 + fg)
    ensures AnsiBg(bg) == (if bg >= 8 then 100 + bg % 8 else 40 + bg)
    ensures [0x1B, 0x5B] + Digits(AnsiFg(fg)) + [0x3B] + Digits(AnsiBg(bg)) + [0x6D] == ColourBytes(fg, bg)
  {
    hide Digits;
  }

  // fmt_int
  method FmtInt(v: int) returns (s: seq<byte>)
    requires -0x8000_0000 < v < 0x8000_0000
    ensures s == if v < 0 then [0x2D] + Digits(-v) else Digits(v)
  {
    hide Digits, Reversed;
    s := [];
    var n := v;
    if n < 0 {
      s := [0x2D];
      n := -n;
    }
    ghost var sign, k: nat := s, n;
    LastDigit(n);
    var tmp: seq<byte> := [0x30 + n % 10];
    n := n / 10;
    while n != 0
      invariant n >= 0 && Digits(k) == Leading(n) + Reversed(tmp)
    {
      MoreDigits(k, n, tmp);
      tmp := tmp + [0x30 + n % 10];
      n := n / 10;
    }
    var i := |tmp|;
    assert tmp[..i] == tmp;
    while i > 0
      invariant 0 <= i <= |tmp| && s + Reversed(tmp[..i]) == sign + Digits(k)
    {
      PutDigit(s, tmp, i, sign + Digits(k));
      i := i - 1;
      s := s + [tmp[i]];
    }
    TakeLast(tmp, 0);
  }

  // The digits still to be found: none when the rest is 0.
  function Leading(n: nat): seq<byte> { if n == 0 then [] else Digits(n) }

  lemma LastDigit(n: nat)
    ensures Digits(n) == Leading(n / 10) + Reversed([0x30 + n % 10])
  {
    assert [0x30 + n % 10][..0] == [];
    assert Reversed([0x30 + n % 10]) == [0x30 + n % 10] + Reversed([]);
  }

  lemma MoreDigits(k: nat, n: nat, tmp: seq<byte>)
    requires n > 0 && Digits(k) == Leading(n) + Reversed(tmp)
    ensures Digits(k) == Leading(n / 10) + Reversed(tmp + [0x30 + n % 10])
  {
    hide Digits, Reversed;
    LastDigit(n);
    var d: seq<byte> := [0x30 + n % 10];
    Prepended(tmp, 0x30 + n % 10);
    Prepended([], 0x30 + n % 10);
    assert [] + d == d && Reversed([]) == [] && d + [] == d by { TakeLast([], 0); }
    Regrouped(Leading(n / 10), d, Reversed(tmp));
  }

  lemma Regrouped(a: seq<byte>, b: seq<byte>, c: seq<byte>)
    ensures a + b + c == a + (b + c)
  {
  }

  lemma Prepended(s: seq<byte>, c: byte)
    ensures Reversed(s + [c]) == [c] + Reversed(s)
  {
    assert (s + [c])[..|s|] == s;
  }

  lemma PutDigit(s: seq<byte>, tmp: seq<byte>, i: nat, whole: seq<byte>)
    requires 0 < i <= |tmp| && s + Reversed(tmp[..i]) == whole
    ensures s + [tmp[i - 1]] + Reversed(tmp[..i - 1]) == whole
  {
    hide Reversed;
    TakeLast(tmp, i);
    Regrouped(s, [tmp[i - 1]], Reversed(tmp[..i - 1]));
  }

  lemma TakeLast(s: seq<byte>, i: nat)
    requires i <= |s|
    ensures Reversed(s[..i]) == if i == 0 then [] else [s[i - 1]] + Reversed(s[..i - 1])
  {
    if i > 0 { assert s[..i][..i - 1] == s[..i - 1]; }
  }

  function Reversed(s: seq<byte>): seq<byte> {
    if s == [] then [] else [s[|s| - 1]] + Reversed(s[..|s| - 1])
  }

  // The windows as values, lowest first.
  ghost function PanesOf(ws: seq<Window>): seq<Pane>
    reads ws, set k | 0 <= k < |ws| :: ws[k].buf
  {
    seq(|ws|, k requires 0 <= k < |ws| reads ws, set j | 0 <= j < |ws| :: ws[j].buf => ws[k].View())
  }

  class Screen {
    const composite: array<Cell>
    const phys: array<Cell>
    var windows: seq<Window>
    var output: seq<byte>
    ghost const start: Term

    // What is on the terminal once it has read all output.
    ghost function Shows(): (t: Term)
      requires TermOk(start)
      reads `output
      ensures TermOk(t)
    {
      Feed(start, output)
    }

    ghost predicate Valid()
      reads `output
    {
      && composite.Length == phys.Length == CELLS && composite != phys
      && TermOk(start) && Shows().mode == Ground && AllGraphic(Shows().screen)
    }

    // The terminal shows what is recorded as painted.
    ghost predicate InStep()
      requires TermOk(start)
      reads `output, phys
    {
      InSync(Shows().screen, phys[..])
    }

    ghost predicate WindowsOk()
      reads `windows, windows
    {
      forall k | 0 <= k < |windows| :: windows[k].Valid() && windows[k].buf != composite && windows[k].buf != phys
    }

    ghost function Panes(): (ps: seq<Pane>)
      reads `windows, windows, set k | 0 <= k < |windows| :: windows[k].buf
    {
      PanesOf(windows)
    }

    // tui_init, on a terminal in any state between control functions.
    constructor (ghost t: Term)
      requires TermOk(t) && t.mode == Ground
      ensures Valid() && InStep() && windows == [] && fresh(composite) && fresh(phys)
    {
      var c, p := new Cell[CELLS](_ => BLANK), new Cell[CELLS](_ => BLANK);
      p[0] := Cell(0, BLANK.attr);
      composite, phys, windows, start := c, p, [], t;
      output := HIDE_CURSOR + ERASE_ALL;
      new;
      FeedConcat(t, HIDE_CURSOR, ERASE_ALL);
      FeedHide(t);
      FeedEraseAll(t);
      FirstSync(Shows().screen, phys[..]);
    }

    method Out(bs: seq<byte>)
      requires TermOk(start)
      modifies `output
      ensures output == old(output) + bs && Shows() == Feed(old(Shows()), bs)
    {
      output := output + bs;
      FeedConcat(start, old(output), bs);
    }

    // ansi_goto
    method Goto(y: nat, x: nat)
      requires TermOk(start) && Shows().mode == Ground && y < ROWS && x < COLS
      modifies `output
      ensures Shows() == old(Shows()).(row := y, col := x) && output == old(output) + GotoBytes(y, x)
    {
      var r := FmtInt(y + 1);
      var c := FmtInt(x + 1);
      assert [0x1B, 0x5B] + r + [0x3B] + c + [0x48] == GotoBytes(y, x);
      Out([0x1B, 0x5B] + r + [0x3B] + c + [0x48]);
      FeedGoto(old(Shows()), y, x);
    }

    method Colour(fg: nat, bg: nat)
      requires TermOk(start) && Shows().mode == Ground && fg < 16 && bg < 16
      modifies `output
      ensures Shows() == old(Shows()).(fg := fg, bg := bg) && output == old(output) + ColourBytes(fg, bg)
    {
      var f := FmtInt(if fg >= 8 then 90 + fg % 8 else 30 + fg);
      var b := FmtInt(if bg >= 8 then 100 + bg % 8 else 40 + bg);
      hide Feed, Digits, TwoParams, AnsiFg, AnsiBg, ColourBytes;
      ColourParts(fg, bg);
      Out([0x1B, 0x5B] + f + [0x3B] + b + [0x6D]);
      FeedColour(old(Shows()), fg, bg);
    }

    // tui_win_new, with the list entry
    method NewWindow(x: int, y: int, w: int, h: int, scroll: bool) returns (win: Window?)
      requires Valid() && WindowsOk()
      modifies `windows
      ensures Valid() && WindowsOk()
      ensures win == null <==> w < 1 || h < 1
      ensures win == null ==> windows == old(windows)
      ensures win != null ==> fresh(win) && fresh(win.buf) && win.Valid() && win.cx == 0 && win.cy == 0
      ensures win != null ==> windows == old(windows) + [win] && win.fg == 15 && win.bg == 0 && win.scroll == scroll
      ensures win != null ==> win.View() == Pane(x, y, w, h, seq(w * h, _ => Cell(0x20, 0x0F)))
    {
      if w < 1 || h < 1 { return null; }
      var v := new Window(x, y, w, h, scroll);
      windows := windows + [v];
      win := v;
    }

    // tui_win_close
    method CloseWindow(win: Window) returns (ghost i: nat)
      requires Valid() && WindowsOk()
      modifies `windows
      ensures Valid() && WindowsOk()
      ensures win !in old(windows) ==> windows == old(windows)
      ensures win in old(windows) ==> i < |old(windows)| && old(windows)[i] == win && windows == Closed(old(windows), i)
    {
      i := 0;
      var k := 0;
      while k < |windows|
        invariant 0 <= k <= |windows| && win !in windows[..k]
      {
        if windows[k] == win {
          i := k;
          windows := Closed(windows, k);
          return;
        }
        k := k + 1;
      }
    }

    // One row of a window, clipped to the screen.
    method PaintRow(win: Window, row: nat)
      requires composite.Length == CELLS && win.Valid() && win.buf != composite && row < win.h
      modifies composite
      ensures forall r: nat, c: nat | r < ROWS && c < COLS ::
        composite[At(r, c)] ==
          if r == win.y + row && Covers(win.View(), r, c) then CellAt(win.View(), r, c) else old(composite[At(r, c)])
    {
      var sy := win.y + row;
      if sy < 0 || sy >= ROWS { return; }
      ghost var p := win.View();
      var col := 0;
      while col < win.w
        invariant 0 <= col <= win.w && win.View() == p
        invariant forall r: nat, c: nat | r < ROWS && c < COLS ::
          composite[At(r, c)] ==
            if r == sy && Covers(p, r, c) && c - p.x < col then CellAt(p, r, c) else old(composite[At(r, c)])
      {
        var sx := win.x + col;
        if 0 <= sx < COLS {
          Inside(win.w, win.h, row, col);
          assert CellAt(p, sy, sx) == win.buf[row * win.w + col];
          composite[sy * 80 + sx] := win.buf[row * win.w + col];
          assert win.View() == p;
        }
        col := col + 1;
      }
    }

    method PaintWindow(win: Window)
      requires composite.Length == CELLS && win.Valid() && win.buf != composite
      modifies composite
      ensures forall r: nat, c: nat | r < ROWS && c < COLS ::
        composite[At(r, c)] == if Covers(win.View(), r, c) then CellAt(win.View(), r, c) else old(composite[At(r, c)])
    {
      ghost var p := win.View();
      var row := 0;
      while row < win.h
        invariant 0 <= row <= win.h && win.View() == p
        invariant forall r: nat, c: nat | r < ROWS && c < COLS ::
          composite[At(r, c)] == if Covers(p, r, c) && r - p.y < row then CellAt(p, r, c) else old(composite[At(r, c)])
      {
        PaintRow(win, row);
        row := row + 1;
      }
    }

    // composite: the painter's algorithm.
    method Composite()
      requires composite.Length == CELLS && WindowsOk()
      modifies composite
      ensures IsPicture(composite[..], Panes())
    {
      var i := 0;
      while i < CELLS
        invariant 0 <= i <= CELLS
        invariant forall k | 0 <= k < i :: composite[k] == BLANK
      {
        composite[i] := BLANK;
        i := i + 1;
      }
      ghost var ps := Panes();
      var wi := 0;
      while wi < |windows|
        invariant 0 <= wi <= |windows| && Panes() == ps && WindowsOk()
        invariant IsPicture(composite[..], ps[..wi])
      {
        ghost var before := composite[..];
        PaintWindow(windows[wi]);
        assert Panes() == ps && ps[wi] == windows[wi].View();
        PaintedNext(before, composite[..], ps[..wi], ps[wi]);
        assert ps[..wi] + [ps[wi]] == ps[..wi + 1];
        wi := wi + 1;
      }
      assert ps[..wi] == ps;
    }

    // The row is repainted if it is not what was painted last. The terminal shows
    // it afterwards exactly if it holds no tab and no delete and was shown before
    // or is repainted; the other rows are as they were.
    method RefreshRow(row: nat)
      requires Valid() && row < ROWS
      modifies phys, `output
      ensures Valid() && OnlyRow(old(phys[..]), phys[..], row) && OnlyRow(old(Shows().screen), Shows().screen, row)
      ensures RowSync(Shows().screen, phys[..], row) <==>
        RowShown(old(Shows().screen), old(phys[..]), composite[..], row)
      ensures phys[At(row, 0)..At(row, COLS)] == composite[At(row, 0)..At(row, COLS)] && old(output) <= output
      ensures old(phys[At(row, 0)..At(row, COLS)]) == composite[At(row, 0)..At(row, COLS)] ==> output == old(output)
    {
      hide InSync, OnlyRow, RowSync, RowPainted, Feed, Step, EraseLine, BlankFrom, RowClean, AllGraphic;
      var ch := RowDiffers(row);
      ghost var cells, before, was := composite[..], Shows().screen, phys[..];
      OnlySelf(before, row);
      if !ch {
        NotRepainted(before, cells, was, row);
        return;
      }
      Goto(row, 0);
      var last := LastInk(row);
      StartRow(before, cells, row);
      var c: nat := 0;
      var curFg: int, curBg: int := -1, -1;
      while c <= last
        invariant 0 <= c <= last + 1 && phys[..] == was
        invariant Shows().mode == Ground && AllGraphic(Shows().screen)
        invariant Shows().row == row && OnlyRow(before, Shows().screen, row)
        invariant c > 0 ==> curFg == Shows().fg && curBg == Shows().bg
        invariant c == 0 ==> curFg == -1
        invariant old(output) <= output
        invariant RowClean(cells, row) ==> Shows().col == c && RowPainted(before, Shows().screen, cells, row, c)
      {
        var cell := composite[At(row, c)];
        if Fg(cell) != curFg || Bg(cell) != curBg {
          curFg, curBg := Fg(cell), Bg(cell);
          Colour(curFg, curBg);
        }
        ShownStep(Shows(), cell.ch);
        if RowClean(cells, row) {
          CellClean(cells, row, c);
          PaintCell(before, Shows(), cells, row, c);
        }
        OnlyThen(before, Shows().screen, Step(Shows(), Shown(cell.ch)).screen, row);
        FeedByte(Shows(), Shown(cell.ch));
        Out([Shown(cell.ch)]);
        c := c + 1;
      }
      if RowClean(cells, row) { EndRow(before, Shows(), cells, row, c); }
      FeedErase(Shows());
      EraseGraphic(Shows());
      OnlyThen(before, Shows().screen, EraseLine(Shows()).screen, row);
      if last < COLS - 1 { Out(ERASE_LINE); }
      CopyRow(row);
      Repainted(Shows().screen, cells, phys[..], row);
    }

    method RowDiffers(row: nat) returns (ch: bool)
      requires composite.Length == phys.Length == CELLS && row < ROWS
      ensures ch <==> phys[At(row, 0)..At(row, COLS)] != composite[At(row, 0)..At(row, COLS)]
      ensures !ch ==> OnlyRow(phys[..], phys[..], row)
    {
      var c := 0;
      while c < COLS
        invariant 0 <= c <= COLS
        invariant forall d: nat | d < c :: phys[At(row, d)] == composite[At(row, d)]
      {
        if composite[At(row, c)] != phys[At(row, c)] {
          assert phys[At(row, 0)..At(row, COLS)][c] != composite[At(row, 0)..At(row, COLS)][c];
          return true;
        }
        c := c + 1;
      }
      forall d: nat | d < COLS ensures phys[At(row, 0)..At(row, COLS)][d] == composite[At(row, 0)..At(row, COLS)][d] {
        assert phys[At(row, d)] == composite[At(row, d)];
      }
      return false;
    }

    // The last cell of the row that does not hold a space.
    method LastInk(row: nat) returns (last: int)
      requires composite.Length == CELLS && row < ROWS
      ensures -1 <= last < COLS && BlankFrom(composite[..], row, last + 1)
      ensures last >= 0 ==> composite[At(row, last)].ch != 0x20
    {
      var c := COLS - 1;
      while c >= 0
        invariant -1 <= c < COLS && BlankFrom(composite[..], row, c + 1)
      {
        if composite[At(row, c)].ch != 0x20 { return c; }
        c := c - 1;
      }
      return -1;
    }

    // memcpy(pr, cr, ..)
    method CopyRow(row: nat)
      requires composite.Length == phys.Length == CELLS && composite != phys && row < ROWS
      modifies phys
      ensures OnlyRow(old(phys[..]), phys[..], row)
      ensures phys[At(row, 0)..At(row, COLS)] == composite[At(row, 0)..At(row, COLS)]
    {
      var c := 0;
      while c < COLS
        invariant 0 <= c <= COLS
        invariant OnlyRow(old(phys[..]), phys[..], row)
        invariant forall d: nat | d < c :: phys[At(row, d)] == composite[At(row, d)]
      {
        phys[At(row, c)] := composite[At(row, c)];
        c := c + 1;
      }
      forall d: nat | d < COLS ensures phys[At(row, 0)..At(row, COLS)][d] == composite[At(row, 0)..At(row, COLS)][d] {
        assert phys[At(row, d)] == composite[At(row, d)];
      }
    }

    // tui_refresh
    method Refresh()
      requires Valid() && WindowsOk()
      modifies composite, phys, `output
      // A row is shown exactly if no tab and no delete is to be seen in it, and it
      // was in step or is repainted.
      ensures forall r: nat | r < ROWS ::
        RowSync(Shows().screen, phys[..], r) <==> RowShown(old(Shows().screen), old(phys[..]), phys[..], r)
      ensures forall r: nat | r < ROWS :: RowClean(phys[..], r) <==> CleanRow(Panes(), r)
      // So from a terminal in step it shows the picture exactly if there is none.
      ensures old(InStep()) ==> (InStep() <==> CleanPicture(Panes()))
      ensures old(InStep()) && CleanPicture(Panes()) ==> Seen(Shows().screen, Panes())
      ensures Valid() && IsPicture(phys[..], Panes()) && phys[..] == composite[..] && old(output) <= output
      ensures IsPicture(old(phys[..]), Panes()) ==> output == old(output)
    {
      hide RowSync, OnlyRow, RowClean, CleanRow, Feed, Painted, AllGraphic, Seen;
      Composite();
      ghost var cells, before, ps, screen := composite[..], phys[..], Panes(), Shows().screen;
      var row := 0;
      while row < ROWS
        invariant 0 <= row <= ROWS && Valid() && composite[..] == cells
        invariant forall r: nat | r < row ::
          RowSync(Shows().screen, phys[..], r) <==> RowShown(screen, before, cells, r)
        invariant forall r: nat | row <= r < ROWS ::
          RowSync(Shows().screen, phys[..], r) <==> RowSync(screen, before, r)
        invariant phys[..At(row, 0)] == cells[..At(row, 0)] && phys[At(row, 0)..] == before[At(row, 0)..]
        invariant old(output) <= output && (before == cells ==> output == old(output))
      {
        ghost var was, shown := phys[..], Shows().screen;
        RefreshRow(row);
        forall r: nat | r < ROWS && r != row
          ensures RowSync(Shows().screen, phys[..], r) <==> RowSync(shown, was, r)
        {
          OtherRow(shown, Shows().screen, was, phys[..], row, r);
        }
        RowDone(was, phys[..], cells, before, row);
        row := row + 1;
      }
      assert phys[..] == cells;
      assert Panes() == ps;
      forall r: nat | r < ROWS ensures RowClean(cells, r) <==> CleanRow(ps, r) { PictureClean(cells, ps, r); }
      if IsPicture(before, ps) { OnePicture(before, cells, ps); }
      SyncIff(screen, before, Shows().screen, cells, ps);
      if old(InStep()) && CleanPicture(ps) { PictureSeen(Shows().screen, phys[..], ps); }
    }
  }

  lemma SyncIff(screen: seq<Glyph>, was: seq<Cell>, screen': seq<Glyph>, now: seq<Cell>, ps: seq<Pane>)
    requires |screen| == |screen'| == |was| == |now| == CELLS && forall p | p in ps :: PaneOk(p)
    requires forall r: nat | r < ROWS :: RowSync(screen', now, r) <==> RowShown(screen, was, now, r)
    requires forall r: nat | r < ROWS :: RowClean(now, r) <==> CleanRow(ps, r)
    ensures InSync(screen, was) ==> (InSync(screen', now) <==> CleanPicture(ps))
  {
    hide RowSync, RowClean, CleanRow;
    if InSync(screen, was) {
      forall r: nat | r < ROWS ensures RowSync(screen', now, r) <==> CleanRow(ps, r) {
        assert RowSync(screen, was, r);
        assert RowSync(screen', now, r) <==> RowShown(screen, was, now, r);
      }
    }
  }

  // One window of one cell that holds a tab or a delete: after the refresh the
  // terminal does not show what the picture holds.
  method SpoiltRefresh(ch: byte, ghost t: Term) returns (s: Screen)
    requires ch == 9 || ch == 0x7F
    requires TermOk(t) && t.mode == Ground
    ensures s.Valid() && s.WindowsOk() && IsPicture(s.phys[..], s.Panes()) && s.phys[0].ch == ch && !s.InStep()
  {
    hide InSync, Feed, AllGraphic;
    s := new Screen(t);
    var win := s.NewWindow(0, 0, 1, 1, false);
    win.AddCh(ch);
    ghost var p := win.View();
    s.Refresh();
    assert s.Panes() == [p] && [p][..0] == [];
    assert Covers(p, 0, 0) && CellAt(p, 0, 0).ch == ch;
    assert s.phys[..][At(0, 0)] == Painted([p], 0, 0);
    assert !RowClean(s.phys[..], 0);
    assert !RowSync(s.Shows().screen, s.phys[..], 0);
  }

  lemma OnePicture(a: seq<Cell>, b: seq<Cell>, ps: seq<Pane>)
    requires IsPicture(a, ps) && IsPicture(b, ps)
    ensures a == b
  {
    forall i | 0 <= i < CELLS ensures a[i] == b[i] { assert i == At(i / 80, i % 80); }
  }

  lemma FeedByte(t: Term, b: byte)
    requires TermOk(t)
    ensures Feed(t, [b]) == Step(t, b)
  {
    FeedOne(t, [], b);
    assert [] + [b] == [b];
  }

  lemma StartRow(before: seq<Glyph>, cells: seq<Cell>, row: nat)
    requires |cells| == |before| == CELLS && row < ROWS
    ensures RowPainted(before, before, cells, row, 0)
  {
  }

  lemma OnlySelf<T>(s: seq<T>, r: nat)
    ensures OnlyRow(s, s, r)
  {
  }

  lemma CellClean(cells: seq<Cell>, row: nat, c: nat)
    requires |cells| == CELLS && row < ROWS && c < COLS && RowClean(cells, row)
    ensures cells[At(row, c)].ch != 9 && cells[At(row, c)].ch != 0x7F
  {
  }

  // A row that is not repainted.
  lemma NotRepainted(screen: seq<Glyph>, cells: seq<Cell>, was: seq<Cell>, row: nat)
    requires |screen| == |cells| == |was| == CELLS && row < ROWS && AllGraphic(screen)
    requires was[At(row, 0)..At(row, COLS)] == cells[At(row, 0)..At(row, COLS)]
    ensures RowSync(screen, was, row) ==> RowClean(cells, row)
  {
    if RowSync(screen, was, row) {
      RowsOf(screen, was, cells, row);
      SyncIsClean(screen, cells, row);
    }
  }

  // One that is.
  lemma Repainted(screen: seq<Glyph>, cells: seq<Cell>, now: seq<Cell>, row: nat)
    requires |screen| == |cells| == |now| == CELLS && row < ROWS && AllGraphic(screen)
    requires now[At(row, 0)..At(row, COLS)] == cells[At(row, 0)..At(row, COLS)]
    requires RowClean(cells, row) ==> RowSync(screen, cells, row)
    ensures RowSync(screen, now, row) <==> RowClean(cells, row)
  {
    if RowSync(screen, now, row) {
      RowsOf(screen, now, cells, row);
      SyncIsClean(screen, cells, row);
    }
    if RowClean(cells, row) { RowsOf(screen, cells, now, row); }
  }

  // A row copied is in step if its source is.
  lemma RowsOf(screen: seq<Glyph>, cells: seq<Cell>, cells': seq<Cell>, row: nat)
    requires |screen| == |cells| == |cells'| == CELLS && row < ROWS && RowSync(screen, cells, row)
    requires cells'[At(row, 0)..At(row, COLS)] == cells[At(row, 0)..At(row, COLS)]
    ensures RowSync(screen, cells', row)
  {
    forall d: nat | d < COLS ensures cells'[At(row, d)] == cells[At(row, d)] {
      assert cells'[At(row, 0)..At(row, COLS)][d] == cells[At(row, 0)..At(row, COLS)][d];
    }
    forall c: nat | c < COLS ensures GlyphOk(screen, cells', row, c) {
      assert GlyphOk(screen, cells, row, c);
      assert Inked(cells', row, c) <==> Inked(cells, row, c);
    }
  }

  lemma RowDone(was: seq<Cell>, now: seq<Cell>, cells: seq<Cell>, before: seq<Cell>, row: nat)
    requires |was| == |cells| == |before| == CELLS && row < ROWS && OnlyRow(was, now, row)
    requires was[..At(row, 0)] == cells[..At(row, 0)] && was[At(row, 0)..] == before[At(row, 0)..]
    requires now[At(row, 0)..At(row, COLS)] == cells[At(row, 0)..At(row, COLS)]
    ensures now[..At(row + 1, 0)] == cells[..At(row + 1, 0)] && now[At(row + 1, 0)..] == before[At(row + 1, 0)..]
    ensures was[At(row, 0)..At(row, COLS)] == before[At(row, 0)..At(row, COLS)]
  {
    assert now[..At(row, 0)] == was[..At(row, 0)];
    assert now[..At(row + 1, 0)] == now[..At(row, 0)] + now[At(row, 0)..At(row, COLS)];
    assert cells[..At(row + 1, 0)] == cells[..At(row, 0)] + cells[At(row, 0)..At(row, COLS)];
    assert was[At(row + 1, 0)..] == was[At(row, 0)..][COLS..] &&
           before[At(row + 1, 0)..] == before[At(row, 0)..][COLS..];
    assert was[At(row, 0)..At(row, COLS)] == was[At(row, 0)..][..COLS];
    assert before[At(row, 0)..At(row, COLS)] == before[At(row, 0)..][..COLS];
  }

  lemma PaintedNext(before: seq<Cell>, cells: seq<Cell>, ps: seq<Pane>, p: Pane)
    requires IsPicture(before, ps) && PaneOk(p) && |cells| == CELLS
    requires forall r: nat, c: nat | r < ROWS && c < COLS ::
      cells[At(r, c)] == if Covers(p, r, c) then CellAt(p, r, c) else before[At(r, c)]
    ensures IsPicture(cells, ps + [p])
  {
    assert (ps + [p])[..|ps|] == ps;
  }

  // After ESC [ 2 J nothing is on the screen, and phys differs from it only in a
  // cell that would be shown blank.
  lemma FirstSync(screen: seq<Glyph>, cells: seq<Cell>)
    requires |screen| == |cells| == CELLS && forall i | 0 <= i < CELLS :: screen[i] == ERASED
    requires forall i | 0 < i < CELLS :: cells[i] == BLANK
    requires cells[0].ch == 0
    ensures InSync(screen, cells)
  {
    forall r: nat, d: nat | r < ROWS && d < COLS ensures Shown(cells[At(r, d)].ch) == 0x20 { }
    forall r: nat | r < ROWS ensures RowSync(screen, cells, r) {
      forall c: nat | c < COLS ensures GlyphOk(screen, cells, r, c) { }
    }
  }
}
