/** What the sprite draw (Dxyn) and set_pixel promise: each sprite pixel maps to
 *  its own framebuffer cell, the draw XORs exactly those cells, VF reports whether
 *  a lit cell was hit, and drawing the same sprite twice restores the screen.
 */
module DrawProperties {
  import opened Machine
  import opened Semantics

  /** No framebuffer cell occurs twice. */
  predicate Distinct(ts: seq<Pixel>) {
    forall i, j :: 0 <= i < j < |ts| ==> ts[i] != ts[j]
  }

  /** The cell of column c of a sprite row drawn at (px, py). */
  function Column(px: nat, py: nat, c: nat): (t: Pixel)
    ensures t / DisplayWidth == py % DisplayHeight
  {
    PixelIndex(px + c, py)
  }

  /** The screen row of row r of a sprite drawn from screen row ry. */
  function ScreenRow(ry: nat, r: nat): (y: nat)
    ensures y < DisplayHeight
  {
    (ry + r) % DisplayHeight
  }

  /** Fewer than 32 rows apart, two sprite rows land on different screen rows. */
  lemma ScreenRowsDiffer(ry: nat, a: nat, b: nat)
    requires a < b < DisplayHeight
    ensures ScreenRow(ry, a) != ScreenRow(ry, b)
  {
    var q, q2 := (ry + a) / DisplayHeight, (ry + b) / DisplayHeight;
    assert ry + a == q * DisplayHeight + ScreenRow(ry, a);
    assert ry + b == q2 * DisplayHeight + ScreenRow(ry, b);
  }

  /** set_pixel's wrap-around: two coordinate pairs address the same cell exactly
   *  when they agree modulo the screen's width and height. */
  lemma PixelIndexInjective(x: int, y: int, x2: int, y2: int)
    ensures PixelIndex(x, y) == PixelIndex(x2, y2)
            <==> x % DisplayWidth == x2 % DisplayWidth && y % DisplayHeight == y2 % DisplayHeight
  {
    var k, k2 := PixelIndex(x, y), PixelIndex(x2, y2);
    assert k == (k / DisplayWidth) * DisplayWidth + k % DisplayWidth;
    assert k2 == (k2 / DisplayWidth) * DisplayWidth + k2 % DisplayWidth;
  }

  /** The cells of one sprite row all lie on screen row py, are pairwise distinct,
   *  and differ from the cells of every column not drawn yet. */
  lemma {:induction false} RowTargetsShape(sprite: nat, px: nat, py: nat, cols: nat)
    requires cols <= DisplayWidth
    ensures var ts := RowTargets(sprite, px, py, cols);
            && Distinct(ts)
            && (forall k :: 0 <= k < |ts| ==> ts[k] / DisplayWidth == py % DisplayHeight)
            && (forall k, c :: 0 <= k < |ts| && cols <= c < DisplayWidth ==> ts[k] != Column(px, py, c))
  {
    if cols > 0 {
      RowTargetsShape(sprite, px, py, cols - 1);
      var prev := RowTargets(sprite, px, py, cols - 1);
      var t := Column(px, py, cols - 1);
      var ts := RowTargets(sprite, px, py, cols);
      if SpriteBit(sprite, cols - 1) {
        assert ts == prev + [t];
        DistinctConcat(prev, [t]);
        forall k, c | 0 <= k < |ts| && cols <= c < DisplayWidth
          ensures ts[k] != Column(px, py, c)
        {
          if k == |prev| {
            ColumnsDiffer(px, py, cols - 1, c);
          } else {
            assert ts[k] == prev[k];
          }
        }
      } else {
        assert ts == prev;
      }
    }
  }

  /** Fewer than 64 columns apart, two pixels of a row land in different cells. */
  lemma ColumnsDiffer(px: nat, py: nat, a: nat, b: nat)
    requires a < b < DisplayWidth
    ensures Column(px, py, a) != Column(px, py, b)
  {
    PixelIndexInjective(px + a, py, px + b, py);
    var q, q2 := (px + a) / DisplayWidth, (px + b) / DisplayWidth;
    assert px + a == q * DisplayWidth + (px + a) % DisplayWidth;
    assert px + b == q2 * DisplayWidth + (px + b) % DisplayWidth;
  }

  /** Concatenating two sequences without a common element keeps them distinct. */
  lemma DistinctConcat(a: seq<Pixel>, b: seq<Pixel>)
    requires Distinct(a) && Distinct(b)
    requires forall i, j :: 0 <= i < |a| && 0 <= j < |b| ==> a[i] != b[j]
    ensures Distinct(a + b)
  {
    forall i, j | 0 <= i < j < |a + b|
      ensures (a + b)[i] != (a + b)[j]
    {
      if j < |a| {
        assert (a + b)[i] == a[i] && (a + b)[j] == a[j];
      } else if i < |a| {
        assert (a + b)[i] == a[i] && (a + b)[j] == b[j - |a|];
      } else {
        assert (a + b)[i] == b[i - |a|] && (a + b)[j] == b[j - |a|];
      }
    }
  }

  /** A sprite of at most 32 rows touches pairwise distinct cells, none of them on
   *  the screen row of a sprite row not drawn yet. */
  lemma {:induction false} SpriteTargetsShape(memory: seq<nat>, addr: nat, rows: nat, rx: nat, ry: nat)
    requires rows <= DisplayHeight
    requires rows == 0 || addr + rows <= |memory|
    ensures var ts := SpriteTargets(memory, addr, rows, rx, ry);
            && Distinct(ts)
            && (forall k, r :: 0 <= k < |ts| && rows <= r < DisplayHeight ==> ts[k] / DisplayWidth != ScreenRow(ry, r))
  {
    if rows > 0 {
      SpriteTargetsShape(memory, addr, rows - 1, rx, ry);
      var prev := SpriteTargets(memory, addr, rows - 1, rx, ry);
      var row := RowTargets(memory[addr + rows - 1], rx, ry + rows - 1, 8);
      RowTargetsShape(memory[addr + rows - 1], rx, ry + rows - 1, 8);
      var y := ScreenRow(ry, rows - 1);
      assert forall j :: 0 <= j < |row| ==> row[j] / DisplayWidth == y;
      forall i, j | 0 <= i < |prev| && 0 <= j < |row|
        ensures prev[i] != row[j]
      {
        assert prev[i] / DisplayWidth != y;
      }
      DistinctConcat(prev, row);
      var ts := prev + row;
      assert ts == SpriteTargets(memory, addr, rows, rx, ry);
      forall k, r | 0 <= k < |ts| && rows <= r < DisplayHeight
        ensures ts[k] / DisplayWidth != ScreenRow(ry, r)
      {
        if k < |prev| {
          assert ts[k] == prev[k];
        } else {
          assert ts[k] == row[k - |prev|];
          ScreenRowsDiffer(ry, rows - 1, r);
        }
      }
    }
  }

  /** Toggling distinct cells flips exactly those cells, and reports a collision
   *  exactly when one of them was lit (held 1) beforehand. */
  lemma {:induction false} ToggleDistinct(d: seq<nat>, ts: seq<Pixel>)
    requires |d| == DisplaySize && Distinct(ts)
    ensures var r := ToggleAll(d, ts);
            && (forall k :: 0 <= k < |d| ==> r.display[k] == if k in ts then Flip(d[k]) else d[k])
            && (r.collision <==> exists j :: 0 <= j < |ts| && d[ts[j]] == 1)
  {
    if ts != [] {
      var init, t := ts[..|ts| - 1], ts[|ts| - 1];
      assert Distinct(init);
      ToggleDistinct(d, init);
      assert ts == init + [t];
      assert t !in init;
      var prev := ToggleAll(d, init);
      assert prev.display[t] == d[t];
      var r := ToggleAll(d, ts);
      if r.collision {
        if !prev.collision {
          assert d[ts[|ts| - 1]] == 1;
        }
      }
      if exists j :: 0 <= j < |ts| && d[ts[j]] == 1 {
        var j :| 0 <= j < |ts| && d[ts[j]] == 1;
        if j < |init| {
          assert init[j] == ts[j];
        }
      }
    }
  }

  /** The targets of the sprite that Dxyn draws from state s. */
  function DrawTargets(s: State, opcode: nat): seq<Pixel>
    requires WellFormed(s)
    requires s.i + Low4(opcode) <= MemorySize
  {
    SpriteTargets(s.memory, s.i, Low4(opcode), s.v[RegX(opcode)], s.v[RegY(opcode)])
  }

  /** Dxyn with the sprite inside memory: succeeds, XORs each sprite pixel onto its
   *  own cell, sets VF to 1 exactly when a lit cell was hit (0 otherwise), and
   *  changes no other register, no memory and no counter. */
  lemma DrawXorsSprite(s: State, opcode: nat)
    requires WellFormed(s)
    requires s.i + Low4(opcode) <= MemorySize
    ensures var r := Display(s, opcode);
            var ts := DrawTargets(s, opcode);
            && r.Ok?
            && (forall k :: 0 <= k < DisplaySize ==>
                  r.value.display[k] == if k in ts then Flip(s.display[k]) else s.display[k])
            && (r.value.v[Flag] == 1 <==> exists j :: 0 <= j < |ts| && s.display[ts[j]] == 1)
            && r.value.v == s.v[Flag := r.value.v[Flag]] && r.value.v[Flag] <= 1
            && r.value.(display := s.display, v := s.v, refreshNeeded := s.refreshNeeded) == s
            && r.value.refreshNeeded == (s.refreshNeeded || |ts| > 0)
  {
    var ts := DrawTargets(s, opcode);
    SpriteTargetsShape(s.memory, s.i, Low4(opcode), s.v[RegX(opcode)], s.v[RegY(opcode)]);
    ToggleDistinct(s.display, ts);
  }

  /** A draw keeps every pixel a single bit. */
  lemma DrawKeepsWellFormed(s: State, opcode: nat)
    requires WellFormed(s)
    requires s.i + Low4(opcode) <= MemorySize
    ensures Display(s, opcode).Ok? && WellFormed(Display(s, opcode).value)
  {
    DrawXorsSprite(s, opcode);
    var s1 := Display(s, opcode).value;
    var ts := DrawTargets(s, opcode);
    forall k | 0 <= k < DisplaySize
      ensures s1.display[k] <= 1
    {
      if k in ts {
        assert s1.display[k] == Flip(s.display[k]);
      }
    }
  }

  /** Flipping the lowest bit twice gives the value back. */
  lemma FlipTwice(b: nat)
    ensures Flip(Flip(b)) == b
  {
  }

  /** Drawing the same sprite twice at the same place, with neither coordinate in
   *  VF, restores the screen: every pixel is XORed twice. The second draw's VF
   *  reports a hit on the first draw's pixels. */
  lemma DrawTwiceRestores(s: State, opcode: nat)
    requires WellFormed(s)
    requires RegX(opcode) != Flag && RegY(opcode) != Flag
    requires s.i + Low4(opcode) <= MemorySize
    ensures Display(s, opcode).Ok? && WellFormed(Display(s, opcode).value)
    ensures var s1 := Display(s, opcode).value;
            && Display(s1, opcode).Ok?
            && Display(s1, opcode).value.display == s.display
            && (Display(s1, opcode).value.v[Flag] == 1 <==> exists j :: 0 <= j < |DrawTargets(s, opcode)| && s1.display[DrawTargets(s, opcode)[j]] == 1)
  {
    DrawKeepsWellFormed(s, opcode);
    DrawXorsSprite(s, opcode);
    var s1 := Display(s, opcode).value;
    var ts := DrawTargets(s, opcode);
    assert DrawTargets(s1, opcode) == ts;
    DrawXorsSprite(s1, opcode);
    var s2 := Display(s1, opcode).value;
    forall k | 0 <= k < DisplaySize
      ensures s2.display[k] == s.display[k]
    {
      if k in ts {
        FlipTwice(s.display[k]);
      }
    }
  }

  /** 00E0 followed by any in-memory draw never reports a collision. */
  lemma ClearThenDrawNoCollision(s: State, opcode: nat)
    requires WellFormed(s)
    requires s.i + Low4(opcode) <= MemorySize
    ensures WellFormed(ResetDisplay(s))
    ensures Display(ResetDisplay(s), opcode).Ok?
    ensures Display(ResetDisplay(s), opcode).value.v[Flag] == 0
  {
    var s1 := ResetDisplay(s);
    DrawXorsSprite(s1, opcode);
  }
}
