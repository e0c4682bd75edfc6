/**
 * The schematic that a printer reproduces. The loader module that supplies it
 * is not part of this model; what the printers rely on is captured here: a
 * cuboid of size (sx, sy, sz), a palette whose entry 0 is air, one palette id
 * per voxel, and a bijection between linear indices and relative positions.
 *
 * The layout is y-major (layer after layer, each layer z-major, each row x):
 * layer L occupies the indices [L*sx*sz, (L+1)*sx*sz), which is what the
 * building printer's per-layer scan assumes.
 */
module Schematic {
  import opened Wrappers
  import opened Arith

  datatype Vec3 = Vec3(x: int, y: int, z: int)
  {
    function Plus(o: Vec3): Vec3 { Vec3(x + o.x, y + o.y, z + o.z) }
    function Minus(o: Vec3): Vec3 { Vec3(x - o.x, y - o.y, z - o.z) }
    function Offset(dx: int, dy: int, dz: int): Vec3 { Vec3(x + dx, y + dy, z + dz) }
  }

  /** A block state's `Properties` object (facing, axis, half, type, face, ...). */
  type Properties = map<string, string>

  /** One palette entry: a block name and its optional `Properties`. */
  datatype PaletteEntry = PaletteEntry(name: string, properties: Option<Properties>)

  /** The `schematic` part of a bot's mapart configuration. */
  datatype SchematicConfig = SchematicConfig(filename: string, placementX: int, placementY: int, placementZ: int)

  datatype Schematic = Schematic(
    sx: nat, sy: nat, sz: nat,
    palette: seq<PaletteEntry>,
    pids: seq<nat>,
    /** `Metadata.TotalBlocks`, as reported by the loader */
    totalBlocks: nat)
  {
    function Volume(): nat { sx * sy * sz }

    function LayerSize(): nat { sx * sz }

    /** Well-formed: one palette id per voxel, every id names a palette entry. */
    predicate Valid() {
      && sx > 0 && sz > 0
      && |pids| == Volume()
      && forall i | 0 <= i < |pids| :: pids[i] < |palette|
    }

    /** `index(x, y, z)` */
    function Index(p: Vec3): int {
      (p.y * sz + p.z) * sx + p.x
    }

    /** `vec3(i)` */
    function At(i: nat): Vec3
      requires sx > 0 && sz > 0
    {
      Vec3(i % sx, i / (sx * sz), (i / sx) % sz)
    }

    predicate InBox(p: Vec3) {
      0 <= p.x < sx && 0 <= p.y < sy && 0 <= p.z < sz
    }

    /** `getBlockPIDByIndex(i)` */
    function Pid(i: nat): nat
      requires Valid() && i < Volume()
    {
      pids[i]
    }
  }

  /** The row and column of a linear index rebuild the index. */
  lemma {:induction false} IndexAtRoundTrip(s: Schematic, i: nat)
    requires s.sx > 0 && s.sz > 0
    ensures s.Index(s.At(i)) == i
  {
    var sx, sz := s.sx, s.sz;
    var q, r := i / sx, i % sx;
    assert i == q * sx + r;
    var q2, r2 := q / sz, q % sz;
    assert q == q2 * sz + r2;
    var rest := r2 * sx + r;
    assert i == q2 * (sx * sz) + rest by {
      assert (q2 * sz + r2) * sx == q2 * (sx * sz) + r2 * sx;
    }
    assert rest < sx * sz by {
      MulLe(r2, sz - 1, sx);
      assert (sz - 1) * sx == sx * sz - sx;
    }
    DivModUnique(i, sx * sz, q2, rest);
    assert s.At(i) == Vec3(r, q2, r2);
    assert s.Index(Vec3(r, q2, r2)) == (q2 * sz + r2) * sx + r;
  }

  /** A position inside the cuboid survives a round trip through its index. */
  lemma {:induction false} AtOfIndex(s: Schematic, p: Vec3)
    requires s.sx > 0 && s.sz > 0
    requires 0 <= p.x < s.sx && 0 <= p.z < s.sz && 0 <= p.y
    ensures s.Index(p) >= 0 && s.At(s.Index(p)) == p
  {
    var sx, sz := s.sx, s.sz;
    var row := p.y * sz + p.z;
    assert row >= 0;
    var i := row * sx + p.x;
    assert i == s.Index(p);
    DivModUnique(i, sx, row, p.x);
    DivModUnique(row, sz, p.y, p.z);
    var rest := p.z * sx + p.x;
    assert i == p.y * (sx * sz) + rest by {
      assert row * sx == p.y * (sx * sz) + p.z * sx;
    }
    assert rest < sx * sz by {
      MulLe(p.z, sz - 1, sx);
      assert (sz - 1) * sx == sx * sz - sx;
    }
    DivModUnique(i, sx * sz, p.y, rest);
  }

  /** Indices below the volume are exactly the positions inside the cuboid. */
  lemma {:induction false} AtInBox(s: Schematic, i: nat)
    requires s.sx > 0 && s.sz > 0
    ensures s.InBox(s.At(i)) <==> i < s.Volume()
  {
    var a := s.sx * s.sz;
    assert s.Volume() == s.sy * a;
    QuotientBelow(i, a, s.sy);
    var p := s.At(i);
    assert 0 <= p.x < s.sx && 0 <= p.z < s.sz && p.y == i / a;
  }

  /** The y-major layout: layer L is the index range [L*sx*sz, (L+1)*sx*sz). */
  lemma {:induction false} LayerRange(s: Schematic, i: nat, layer: nat)
    requires s.sx > 0 && s.sz > 0
    ensures s.At(i).y == layer <==> layer * s.LayerSize() <= i < (layer + 1) * s.LayerSize()
  {
    var a := s.LayerSize();
    var y := i / a;
    DivBounds(i, a);
    assert (layer + 1) * a == layer * a + a;
    assert (y + 1) * a == y * a + a;
    if y < layer {
      MulLe(y + 1, layer, a);
    } else if y > layer {
      MulLe(layer + 1, y, a);
    }
  }

  /** Layer `layer` of a schematic with more layers ends inside the volume. */
  lemma {:induction false} LayerWithinVolume(s: Schematic, layer: nat)
    requires layer < s.sy
    ensures (layer + 1) * s.LayerSize() <= s.Volume()
  {
    MulLe(layer + 1, s.sy, s.LayerSize());
    assert s.sy * (s.sx * s.sz) == s.sx * s.sy * s.sz;
  }
}
