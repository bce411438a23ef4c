// Differential redraw of a colour panel from a page-ordered monochrome buffer.
module TftModel {
  import opened Basics

  // Positions in the back buffer are counted in sixteen bits.
  const POSITIONS := 0x1_0000

  function Weight(k: nat): (w: nat)
    ensures w > 0
  {
    if k == 0 then 1 else 2 * Weight(k - 1)
  }

  predicate IsSet(b: byte, k: nat) {
    b / Weight(k) % 2 == 1
  }

  datatype Geometry = Geometry(width: nat, height: nat) {
    predicate Valid() {
      width < POSITIONS && height < POSITIONS && height % 8 == 0
    }

    function Pages(): nat {
      height / 8
    }

    function Size(): nat {
      width * Pages()
    }
  }

  lemma IndexInRange(g: Geometry, x: nat, page: nat)
    requires x < g.width && page < g.Pages()
    ensures x + page * g.width < g.Size()
  {
    assert (page + 1) * g.width <= g.Pages() * g.width;
  }

  type Image = seq<seq<bool>>

  predicate Pixel(g: Geometry, buffer: seq<byte>, x: int, y: int) {
    var index := x + (y / 8) * g.width;
    0 <= index < |buffer| && IsSet(buffer[index], y % 8)
  }

  // The picture that drawing every pixel of the buffer gives.
  function FullRedraw(g: Geometry, buffer: seq<byte>): Image {
    seq(g.height, y => seq(g.width, x => Pixel(g, buffer, x, y)))
  }

  // What one call draws: from blank the set pixels, else the pixels that differ from the back buffer.
  predicate Drawn(g: Geometry, panel: Image, buffer: seq<byte>, back: seq<byte>, fromBlank: bool, x: int, y: int)
    requires 0 <= y < |panel| && 0 <= x < |panel[y]|
  {
    if fromBlank then Pixel(g, buffer, x, y)
    else if Pixel(g, buffer, x, y) != Pixel(g, back, x, y) then Pixel(g, buffer, x, y)
    else panel[y][x]
  }

  predicate HasGeometry(panel: Image, g: Geometry) {
    |panel| == g.height && forall y | 0 <= y < |panel| :: |panel[y]| == g.width
  }

  function Redraw(g: Geometry, panel: Image, buffer: seq<byte>, back: seq<byte>, fromBlank: bool): (r: Image)
    requires HasGeometry(panel, g)
    ensures HasGeometry(r, g)
  {
    seq(g.height, y requires 0 <= y < g.height =>
      seq(g.width, x requires 0 <= x < g.width => Drawn(g, panel, buffer, back, fromBlank, x, y)))
  }

  // The copy reaches only the positions that fit in sixteen bits.
  function Copied(buffer: seq<byte>, back: seq<byte>): (r: seq<byte>)
    requires |buffer| == |back|
    ensures |r| == |buffer|
  {
    seq(|buffer|, p requires 0 <= p < |buffer| => if p < POSITIONS then buffer[p] else back[p])
  }

  // The back buffer after the first n rounds of the copy.
  function CopiedFirst(buffer: seq<byte>, back: seq<byte>, n: nat): (r: seq<byte>)
    requires |buffer| == |back|
    ensures |r| == |buffer|
  {
    seq(|buffer|, p requires 0 <= p < |buffer| => if p < n && p < POSITIONS then buffer[p] else back[p])
  }

  // Round n writes to position n in sixteen bits; past them it writes what is there already.
  lemma CopyOneMore(buffer: seq<byte>, back: seq<byte>, n: nat)
    requires n < |buffer| == |back|
    ensures var pos := n % POSITIONS;
            CopiedFirst(buffer, back, n)[pos := buffer[pos]] == CopiedFirst(buffer, back, n + 1)
  {
  }

  datatype Screen = Screen(panel: Image, buffer: seq<byte>, back: seq<byte>) {
    predicate Valid(g: Geometry) {
      g.Valid() && HasGeometry(panel, g) && |buffer| == |back| == g.Size()
    }

    // The panel shows just what the back buffer records.
    predicate Agrees(g: Geometry) {
      panel == FullRedraw(g, back)
    }
  }

  datatype Step = Edit(position: nat, value: byte) | Display(fromBlank: bool)

  function Take(g: Geometry, s: Screen, step: Step): (r: Screen)
    requires s.Valid(g)
    ensures r.Valid(g)
  {
    match step
    case Edit(position, value) =>
      if position < |s.buffer| then s.(buffer := s.buffer[position := value]) else s
    case Display(fromBlank) =>
      s.(panel := Redraw(g, s.panel, s.buffer, s.back, fromBlank), back := Copied(s.buffer, s.back))
  }

  function Run(g: Geometry, s: Screen, steps: seq<Step>): (r: Screen)
    requires s.Valid(g)
    ensures r.Valid(g)
  {
    if |steps| == 0 then s else Take(g, Run(g, s, steps[..|steps| - 1]), steps[|steps| - 1])
  }

  // ---- The differential redraw against the full one -------------------------------------------

  lemma RedrawShowsBuffer(g: Geometry, s: Screen, fromBlank: bool)
    requires s.Valid(g) && (fromBlank || s.Agrees(g))
    ensures Redraw(g, s.panel, s.buffer, s.back, fromBlank) == FullRedraw(g, s.buffer)
  {
    var r, f := Redraw(g, s.panel, s.buffer, s.back, fromBlank), FullRedraw(g, s.buffer);
    forall y | 0 <= y < g.height
      ensures r[y] == f[y]
    {
      assert |r[y]| == |f[y]| == g.width;
      forall x | 0 <= x < g.width
        ensures r[y][x] == f[y][x]
      {
        assert r[y][x] == Drawn(g, s.panel, s.buffer, s.back, fromBlank, x, y);
        assert f[y][x] == Pixel(g, s.buffer, x, y);
        assert !fromBlank ==> s.panel[y][x] == FullRedraw(g, s.back)[y][x] == Pixel(g, s.back, x, y);
      }
    }
  }

  lemma {:induction false} RunKeepsAgreement(g: Geometry, s: Screen, steps: seq<Step>)
    requires s.Valid(g) && s.Agrees(g) && g.Size() <= POSITIONS
    ensures Run(g, s, steps).Agrees(g)
  {
    if |steps| > 0 {
      var before := Run(g, s, steps[..|steps| - 1]);
      RunKeepsAgreement(g, s, steps[..|steps| - 1]);
      if steps[|steps| - 1].Display? {
        RedrawShowsBuffer(g, before, steps[|steps| - 1].fromBlank);
        assert Copied(before.buffer, before.back) == before.buffer;
      }
    }
  }

  // After a display at the end of any run, the panel is a full redraw and the back buffer is current.
  ghost predicate AlwaysShowsBuffer(g: Geometry)
    requires g.Valid()
  {
    forall s: Screen, steps: seq<Step>, fromBlank: bool | s.Valid(g) && s.Agrees(g) ::
      Settled(g, Run(g, s, steps + [Display(fromBlank)]))
  }

  predicate Settled(g: Geometry, s: Screen) {
    s.panel == FullRedraw(g, s.buffer) && s.back == s.buffer
  }

  lemma DisplaySettles(g: Geometry, s: Screen, steps: seq<Step>, fromBlank: bool)
    requires s.Valid(g) && s.Agrees(g) && g.Size() <= POSITIONS
    ensures Settled(g, Run(g, s, steps + [Display(fromBlank)]))
  {
    var all, before := steps + [Display(fromBlank)], Run(g, s, steps);
    assert all[..|all| - 1] == steps;
    RunKeepsAgreement(g, s, steps);
    RedrawShowsBuffer(g, before, fromBlank);
    assert Copied(before.buffer, before.back) == before.buffer;
  }

  function Dark(g: Geometry): Screen
    requires g.Valid()
    ensures Dark(g).Valid(g)
  {
    var zeros: seq<byte> := seq(g.Size(), p => 0);
    Screen(FullRedraw(g, zeros), zeros, zeros)
  }

  const FLASH: seq<Step> := [Edit(POSITIONS, 1), Display(false), Edit(POSITIONS, 0), Display(false)]

  lemma {:induction false} RunExtends(g: Geometry, s: Screen, steps: seq<Step>, step: Step)
    requires s.Valid(g)
    ensures Run(g, s, steps + [step]) == Take(g, Run(g, s, steps), step)
  {
    assert (steps + [step])[..|steps|] == steps;
  }

  lemma PlaceOf(g: Geometry, p: nat) returns (x: nat, page: nat)
    requires g.Valid() && p < g.Size()
    ensures x < g.width && page < g.Pages() && x + page * g.width == p
  {
    x, page := p % g.width, p / g.width;
    assert x + page * g.width == p;
    assert page * g.width < g.Pages() * g.width;
  }

  // Eight bits, lowest first, as a byte.
  function Bits(b0: bool, b1: bool, b2: bool, b3: bool, b4: bool, b5: bool, b6: bool, b7: bool): int {
    Bit(b0) + 2 * Bit(b1) + 4 * Bit(b2) + 8 * Bit(b3) + 16 * Bit(b4) + 32 * Bit(b5) + 64 * Bit(b6) + 128 * Bit(b7)
  }

  function Bit(lit: bool): int {
    if lit then 1 else 0
  }

  lemma Weights()
    ensures Weight(0) == 1 && Weight(1) == 2 && Weight(2) == 4 && Weight(3) == 8
    ensures Weight(4) == 16 && Weight(5) == 32 && Weight(6) == 64 && Weight(7) == 128
  {
    assert Weight(3) == 2 * Weight(2) == 4 * Weight(1);
    assert Weight(5) == 2 * Weight(4) == 4 * Weight(3);
    assert Weight(7) == 2 * Weight(6) == 4 * Weight(5);
  }

  lemma ByteIsItsBits(b: byte)
    ensures b == Bits(IsSet(b, 0), IsSet(b, 1), IsSet(b, 2), IsSet(b, 3),
                      IsSet(b, 4), IsSet(b, 5), IsSet(b, 6), IsSet(b, 7))
  {
    Weights();
    Halves(b);
    BitIs(b, 0, 1);
    BitIs(b, 1, 2);
    BitIs(b, 2, 4);
    BitIs(b, 3, 8);
    BitIs(b, 4, 16);
    BitIs(b, 5, 32);
    BitIs(b, 6, 64);
    BitIs(b, 7, 128);
  }

  lemma BitIs(b: byte, k: nat, w: nat)
    requires w == Weight(k)
    ensures b / w % 2 == Bit(IsSet(b, k))
  {
  }

  lemma Quotients(b: byte)
    ensures b / 2 / 2 == b / 4 && b / 4 / 2 == b / 8 && b / 8 / 2 == b / 16 && b / 16 / 2 == b / 32
    ensures b / 32 / 2 == b / 64 && b / 64 / 2 == b / 128 && b / 128 / 2 == 0
  {
  }

  lemma Halved(n: int, half: int, bit: int)
    requires half == n / 2 && bit == n % 2
    ensures n == 2 * half + bit
  {
  }

  lemma Halves(b: byte)
    ensures b == b % 2 + 2 * (b / 2 % 2) + 4 * (b / 4 % 2) + 8 * (b / 8 % 2) + 16 * (b / 16 % 2) + 32 * (b / 32 % 2) +
                 64 * (b / 64 % 2) + 128 * (b / 128 % 2)
  {
    Quotients(b);
    Halved(b, b / 2, b % 2);
    Halved(b / 2, b / 4, b / 2 % 2);
    Halved(b / 4, b / 8, b / 4 % 2);
    Halved(b / 8, b / 16, b / 8 % 2);
    Halved(b / 16, b / 32, b / 16 % 2);
    Halved(b / 32, b / 64, b / 32 % 2);
    Halved(b / 64, b / 128, b / 64 % 2);
    Halved(b / 128, 0, b / 128 % 2);
  }

  // The k-th pixel of this byte, at row y of the picture p.
  predicate ShowsBit(p: Image, x: nat, y: nat, b: byte, k: nat) {
    y < |p| && x < |p[y]| && p[y][x] == IsSet(b, k)
  }

  lemma PixelShowsBit(g: Geometry, buffer: seq<byte>, x: nat, page: nat, k: nat, p: Image, y: nat, b: byte)
    requires x < g.width && page < g.Pages() && |buffer| == g.Size() && k < 8
    requires p == FullRedraw(g, buffer) && y == 8 * page && x + page * g.width < |buffer|
    requires b == buffer[x + page * g.width]
    ensures ShowsBit(p, x, y + k, b, k)
  {
    assert (8 * page + k) / 8 == page && (8 * page + k) % 8 == k;
    assert p[y + k][x] == Pixel(g, buffer, x, y + k);
  }

  // The picture holds the whole buffer: each byte stands as eight pixels one below the other, the
  // lowest bit on top, and each page of bytes is a band of the screen's width.
  lemma PictureGivesBuffer(g: Geometry, buffer: seq<byte>, x: nat, page: nat, p: Image, y: nat)
    requires x < g.width && page < g.Pages() && |buffer| == g.Size()
    requires p == FullRedraw(g, buffer) && y == 8 * page
    ensures HasGeometry(p, g) && x + page * g.width < |buffer| && y + 7 < |p|
    ensures buffer[x + page * g.width] ==
            Bits(p[y][x], p[y + 1][x], p[y + 2][x], p[y + 3][x], p[y + 4][x], p[y + 5][x], p[y + 6][x], p[y + 7][x])
  {
    IndexInRange(g, x, page);
    var b := buffer[x + page * g.width];
    PixelShowsBit(g, buffer, x, page, 0, p, y, b);
    PixelShowsBit(g, buffer, x, page, 1, p, y, b);
    PixelShowsBit(g, buffer, x, page, 2, p, y, b);
    PixelShowsBit(g, buffer, x, page, 3, p, y, b);
    PixelShowsBit(g, buffer, x, page, 4, p, y, b);
    PixelShowsBit(g, buffer, x, page, 5, p, y, b);
    PixelShowsBit(g, buffer, x, page, 6, p, y, b);
    PixelShowsBit(g, buffer, x, page, 7, p, y, b);
    ByteOfBand(p, x, y, b);
  }

  lemma ByteOfBand(p: Image, x: nat, y: nat, b: byte)
    requires ShowsBit(p, x, y, b, 0) && ShowsBit(p, x, y + 1, b, 1) && ShowsBit(p, x, y + 2, b, 2)
    requires ShowsBit(p, x, y + 3, b, 3) && ShowsBit(p, x, y + 4, b, 4) && ShowsBit(p, x, y + 5, b, 5)
    requires ShowsBit(p, x, y + 6, b, 6) && ShowsBit(p, x, y + 7, b, 7)
    ensures b == Bits(p[y][x], p[y + 1][x], p[y + 2][x], p[y + 3][x],
                      p[y + 4][x], p[y + 5][x], p[y + 6][x], p[y + 7][x])
  {
    ByteIsItsBits(b);
  }

  // The first row of a page shows the lowest bit of the page's bytes.
  lemma PageTop(g: Geometry, buffer: seq<byte>, x: nat, page: nat)
    requires x < g.width && page < g.Pages() && |buffer| == g.Size()
    ensures x + page * g.width < |buffer|
    ensures Pixel(g, buffer, x, 8 * page) <==> buffer[x + page * g.width] % 2 == 1
  {
    IndexInRange(g, x, page);
    assert (8 * page) / 8 == page && (8 * page) % 8 == 0;
    var b := buffer[x + page * g.width];
    assert Weight(0) == 1 && b / 1 == b;
  }

  lemma FlashRun(g: Geometry, zeros: seq<byte>, p0: Image, p1: Image, p2: Image)
    requires g.Valid() && g.Size() > POSITIONS && zeros == Dark(g).buffer && p0 == Dark(g).panel
    requires p1 == Redraw(g, p0, zeros[POSITIONS := 1], zeros, false)
    requires HasGeometry(p1, g) && p2 == Redraw(g, p1, zeros, zeros, false)
    ensures Run(g, Dark(g), FLASH) == Screen(p2, zeros, zeros)
  {
    var lit: seq<byte> := zeros[POSITIONS := 1];
    assert Copied(lit, zeros) == zeros && Copied(zeros, zeros) == zeros && lit[POSITIONS := 0] == zeros;
    assert FLASH == ((([] + [Edit(POSITIONS, 1)]) + [Display(false)]) + [Edit(POSITIONS, 0)]) + [Display(false)];
    RunExtends(g, Dark(g), [], Edit(POSITIONS, 1));
    RunExtends(g, Dark(g), [] + [Edit(POSITIONS, 1)], Display(false));
    RunExtends(g, Dark(g), ([] + [Edit(POSITIONS, 1)]) + [Display(false)], Edit(POSITIONS, 0));
    RunExtends(g, Dark(g), (([] + [Edit(POSITIONS, 1)]) + [Display(false)]) + [Edit(POSITIONS, 0)], Display(false));
  }

  // A byte beyond the reach of the copy that is set, shown, and cleared again stays lit.
  lemma FlashStaysLit(g: Geometry)
    requires g.Valid() && g.Size() > POSITIONS
    ensures Dark(g).Agrees(g)
    ensures !Settled(g, Run(g, Dark(g), FLASH))
  {
    var zeros, p0 := Dark(g).buffer, Dark(g).panel;
    var lit: seq<byte> := zeros[POSITIONS := 1];
    var p1 := Redraw(g, p0, lit, zeros, false);
    var p2 := Redraw(g, p1, zeros, zeros, false);
    FlashRun(g, zeros, p0, p1, p2);
    var x, page := PlaceOf(g, POSITIONS);
    var y := 8 * page;
    PageTop(g, zeros, x, page);
    PageTop(g, lit, x, page);
    assert p1[y][x] == Drawn(g, p0, lit, zeros, false, x, y) == true;
    assert p2[y][x] == Drawn(g, p1, zeros, zeros, false, x, y) == true;
    assert FullRedraw(g, zeros)[y][x] == Pixel(g, zeros, x, y) == false;
  }

  lemma ShowsBufferExactly(g: Geometry)
    requires g.Valid()
    ensures AlwaysShowsBuffer(g) <==> g.Size() <= POSITIONS
  {
    if g.Size() <= POSITIONS {
      forall s: Screen, steps: seq<Step>, fromBlank: bool | s.Valid(g) && s.Agrees(g)
        ensures Settled(g, Run(g, s, steps + [Display(fromBlank)]))
      {
        DisplaySettles(g, s, steps, fromBlank);
      }
    } else {
      FlashStaysLit(g);
      assert FLASH == FLASH[..3] + [Display(false)];
      assert !Settled(g, Run(g, Dark(g), FLASH[..3] + [Display(false)]));
    }
  }
}
