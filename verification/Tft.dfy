// The panel driver: redraws the pixels that changed since the last call, then copies the buffer.
module Tft {
  import opened Basics
  import opened TftModel

  class TFTDisplay {
    const geometry: Geometry
    const buffer: array<byte>
    const bufferBack: array<byte>
    var panel: Image

    ghost predicate Valid()
      reads this, buffer, bufferBack
    {
      && buffer != bufferBack
      && Screen(panel, buffer[..], bufferBack[..]).Valid(geometry)
    }

    constructor (geometry: Geometry)
      requires geometry.Valid()
      ensures Valid() && fresh(buffer) && fresh(bufferBack)
      ensures Screen(panel, buffer[..], bufferBack[..]) == Dark(geometry)
    {
      this.geometry := geometry;
      buffer := new byte[geometry.Size()](p => 0);
      bufferBack := new byte[geometry.Size()](p => 0);
      panel := Dark(geometry).panel;
    }

    method DrawPixel(x: nat, y: nat, lit: bool)
      requires HasGeometry(panel, geometry) && y < geometry.height && x < geometry.width
      modifies `panel
      ensures panel == old(panel)[y := old(panel)[y][x := lit]]
      ensures HasGeometry(panel, geometry)
    {
      panel := panel[y := panel[y][x := lit]];
    }

    method FillScreen()
      modifies `panel
      ensures HasGeometry(panel, geometry)
      ensures forall y, x | 0 <= y < geometry.height && 0 <= x < geometry.width :: !panel[y][x]
    {
      panel := seq(geometry.height, y => seq(geometry.width, x => false));
    }

    // One row of the drawing loop, on a panel whose picture was `was` before the loop.
    method DrawRow(fromBlank: bool, y: nat, ghost was: Image)
      requires Valid() && y < geometry.height && HasGeometry(was, geometry)
      requires if fromBlank then forall x | 0 <= x < geometry.width :: !panel[y][x] else panel[y] == was[y]
      modifies `panel
      ensures Valid()
      ensures forall j | 0 <= j < geometry.height && j != y :: panel[j] == old(panel)[j]
      ensures panel[y] == Redraw(geometry, was, buffer[..], bufferBack[..], fromBlank)[y]
    {
      var x := 0;
      while x < geometry.width
        invariant 0 <= x <= geometry.width && HasGeometry(panel, geometry)
        invariant forall j | 0 <= j < geometry.height && j != y :: panel[j] == old(panel)[j]
        invariant forall k | x <= k < geometry.width :: panel[y][k] == old(panel)[y][k]
        invariant forall k | 0 <= k < x ::
                    panel[y][k] == Drawn(geometry, was, buffer[..], bufferBack[..], fromBlank, k, y)
      {
        IndexInRange(geometry, x, y / 8);
        var isSet := IsSet(buffer[x + (y / 8) * geometry.width], y % 8);
        if !fromBlank {
          var wasSet := IsSet(bufferBack[x + (y / 8) * geometry.width], y % 8);
          if isSet != wasSet {
            DrawPixel(x, y, isSet);
          }
        } else if isSet {
          DrawPixel(x, y, true);
        }
        x := x + 1;
      }
    }

    // The copy of the buffer to the back buffer, whose position variable has sixteen bits.
    method CopyToBack()
      requires Valid()
      modifies bufferBack
      ensures Valid() && bufferBack[..] == Copied(buffer[..], old(bufferBack[..]))
    {
      ghost var back := bufferBack[..];
      var y := 0;
      while y < geometry.Pages()
        invariant 0 <= y <= geometry.Pages()
        invariant bufferBack[..] == CopiedFirst(buffer[..], back, y * geometry.width)
      {
        CopyPage(y, back, y * geometry.width);
        assert (y + 1) * geometry.width == y * geometry.width + geometry.width;
        y := y + 1;
      }
    }

    // The inner loop, over one page.
    method CopyPage(y: nat, ghost back: seq<byte>, ghost start: nat)
      requires Valid() && y < geometry.Pages() && start == y * geometry.width && |back| == bufferBack.Length
      requires bufferBack[..] == CopiedFirst(buffer[..], back, start)
      modifies bufferBack
      ensures Valid() && bufferBack[..] == CopiedFirst(buffer[..], back, start + geometry.width)
    {
      var x := 0;
      while x < geometry.width
        invariant 0 <= x <= geometry.width
        invariant bufferBack[..] == CopiedFirst(buffer[..], back, start + x)
      {
        IndexInRange(geometry, x, y);
        var pos := (x + y * geometry.width) % POSITIONS;
        ghost var before, n := bufferBack[..], start + x;
        CopyOneMore(buffer[..], back, n);
        bufferBack[pos] := buffer[pos];
        assert bufferBack[..] == before[pos := buffer[pos]];
        x := x + 1;
      }
    }

    method Draw(fromBlank: bool)
      requires Valid()
      modifies `panel
      ensures Valid()
      ensures panel == Redraw(geometry, old(panel), buffer[..], bufferBack[..], fromBlank)
    {
      ghost var was, target := panel, Redraw(geometry, panel, buffer[..], bufferBack[..], fromBlank);
      if fromBlank {
        FillScreen();
      }
      var y := 0;
      while y < geometry.height
        invariant 0 <= y <= geometry.height && Valid()
        invariant fromBlank ==> forall j, x | y <= j < geometry.height && 0 <= x < geometry.width :: !panel[j][x]
        invariant !fromBlank ==> forall j | y <= j < geometry.height :: panel[j] == was[j]
        invariant forall j | 0 <= j < y :: panel[j] == target[j]
      {
        DrawRow(fromBlank, y, was);
        y := y + 1;
      }
    }

    method Display(fromBlank: bool)
      requires Valid()
      modifies this, bufferBack
      ensures Valid()
      ensures Screen(panel, buffer[..], bufferBack[..]) ==
              Take(geometry, old(Screen(panel, buffer[..], bufferBack[..])), TftModel.Display(fromBlank))
    {
      Draw(fromBlank);
      CopyToBack();
    }
  }
}
