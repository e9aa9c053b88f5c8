/**
 * One cell of the staggered (MAC) grid (src/cell.cpp, include/cell.h).
 *
 * A cell owns no velocity or pressure memory: its seven scalar fields are slots of grid-wide
 * arrays, which here live in a `Storage` object shared by every cell of a grid. A cell reads and
 * writes slot `index` of those arrays, and reads its east and north neighbours' slots through
 * their indices, so an update made through one cell is seen by the grid and by its neighbours.
 */
module Cells {
  import opened Wrappers
  import opened Particles

  datatype Vec2 = Vec2(x: real, y: real)

  /** What a cell contains. */
  datatype Label = Empty | Solid | Fluid

  /** Whether a cell currently holds particles. */
  datatype Status = Active | Inactive

  lemma LabelsAndStatuses(l: Label, s: Status)
    ensures l == Empty || l == Solid || l == Fluid
    ensures s == Active || s == Inactive
  {
  }

  /** The notification a particle sends to its observers (include/observer.h). */
  datatype EventType = JoinCell | LeaveCell
  datatype Event = Event(kind: EventType, cellIndex: nat)

  /** The exceptions of the source, and undefined behaviour of an unchecked access. */
  datatype Fault = RangeError | OutOfRange | Undefined

  /** The four neighbour pointers, as indices of the grid's cells; None is a null pointer. */
  datatype Neighbours = Neighbours(north: Option<nat>, south: Option<nat>, east: Option<nat>, west: Option<nat>)
  {
    predicate Below(n: nat)
    {
      (north.Some? ==> north.value < n) && (south.Some? ==> south.value < n) &&
      (east.Some? ==> east.value < n) && (west.Some? ==> west.value < n)
    }
  }

  /** Bounds, size, centre and the four half-edge sample points of a cell. */
  datatype Geometry = Geometry(
    minU: real, minV: real, maxU: real, maxV: real,
    deltaU: real, deltaV: real,
    centre: Vec2,
    halfEdgeN: Vec2, halfEdgeS: Vec2, halfEdgeE: Vec2, halfEdgeW: Vec2)
  {
    predicate Contains(p: Vec2)
    {
      minU <= p.x <= maxU && minV <= p.y <= maxV
    }

    /** A cell of positive size whose derived values are those computed from its bounds. */
    predicate Proper()
    {
      minU < maxU && minV < maxV && this == MakeGeometry(Vec2(minU, minV), Vec2(maxU, maxV))
    }
  }

  /** The geometry the cell constructor computes from the two corners. */
  function MakeGeometry(min: Vec2, max: Vec2): (g: Geometry)
    ensures g.minU == min.x && g.minV == min.y && g.maxU == max.x && g.maxV == max.y
    ensures g.deltaU == max.x - min.x && g.deltaV == max.y - min.y
  {
    var deltaU := max.x - min.x;
    var deltaV := max.y - min.y;
    var centre := Vec2(min.x + deltaU / 2.0, min.y + deltaV / 2.0);
    Geometry(min.x, min.y, max.x, max.y, deltaU, deltaV, centre,
             Vec2(centre.x, max.y), Vec2(centre.x, min.y), Vec2(max.x, centre.y), Vec2(min.x, centre.y))
  }

  /**
   * The centre is the midpoint of the cell, and each half-edge is the midpoint of its face:
   * north and south on the top and bottom faces, east and west on the right and left faces.
   */
  lemma GeometryLayout(min: Vec2, max: Vec2)
    requires min.x < max.x && min.y < max.y
    ensures var g := MakeGeometry(min, max);
      g.Proper() &&
      g.centre == Vec2((g.minU + g.maxU) / 2.0, (g.minV + g.maxV) / 2.0) &&
      g.halfEdgeN == Vec2((g.minU + g.maxU) / 2.0, g.maxV) &&
      g.halfEdgeS == Vec2((g.minU + g.maxU) / 2.0, g.minV) &&
      g.halfEdgeE == Vec2(g.maxU, (g.minV + g.maxV) / 2.0) &&
      g.halfEdgeW == Vec2(g.minU, (g.minV + g.maxV) / 2.0) &&
      g.Contains(g.centre) && g.Contains(g.halfEdgeN) && g.Contains(g.halfEdgeS) &&
      g.Contains(g.halfEdgeE) && g.Contains(g.halfEdgeW)
  {
  }

  /**
   * The copy constructor and copy assignment as written: they take deltaV from the other
   * cell's deltaU.
   */
  function CopyAsWritten(g: Geometry): Geometry
  {
    g.(deltaV := g.deltaU)
  }

  /**
   * For a cell that is not square the copy as written is no longer a proper geometry: its
   * deltaV is the width of the cell, so the weight of the north sample at the north face is
   * deltaV / deltaU instead of 1, and sampling extrapolates beyond the two samples.
   */
  lemma CopyAsWrittenBreaksGeometry(g: Geometry)
    requires g.Proper() && g.deltaU != g.deltaV
    ensures !CopyAsWritten(g).Proper()
    ensures CopyAsWritten(g).deltaV == g.deltaU && CopyAsWritten(g) != g
    ensures (g.maxV - CopyAsWritten(g).minV) / CopyAsWritten(g).deltaV != 1.0
  {
    var c := CopyAsWritten(g);
    assert c.maxV - c.minV == g.deltaV;
  }

  /** `a` lies between `b` and `c`, whichever is larger. */
  predicate Between(a: real, b: real, c: real)
  {
    (b <= a <= c) || (c <= a <= b)
  }

  lemma MulNonnegative(x: real, y: real)
    requires 0.0 <= x && 0.0 <= y
    ensures 0.0 <= x * y
  {
  }

  lemma ConvexCombination(alpha: real, b: real, c: real)
    requires 0.0 <= alpha <= 1.0
    ensures Between((1.0 - alpha) * b + alpha * c, b, c)
  {
    assert (1.0 - alpha) * b + alpha * c == b + alpha * (c - b);
    if b <= c {
      MulNonnegative(alpha, c - b);
      MulNonnegative(1.0 - alpha, c - b);
      assert (c - b) - alpha * (c - b) == (1.0 - alpha) * (c - b);
    } else {
      MulNonnegative(alpha, b - c);
      MulNonnegative(1.0 - alpha, b - c);
      assert alpha * (c - b) == -(alpha * (b - c));
      assert (b - c) - alpha * (b - c) == (1.0 - alpha) * (b - c);
    }
  }

  lemma UnitFraction(a: real, d: real)
    requires 0.0 <= a <= d && d > 0.0
    ensures 0.0 <= a / d <= 1.0
  {
    assert (a / d) * d == a;
  }

  /**
   * The linear blend of the cells' own samples with the east and north neighbours' samples,
   * weighted by the position of `p` in the cell, for any cell size.
   */
  function Weighted(g: Geometry, p: Vec2, u: real, eastU: real, v: real, northV: real): Vec2
    requires g.deltaU != 0.0 && g.deltaV != 0.0
  {
    var alphaU := (p.x - g.minU) / g.deltaU;
    var alphaV := (p.y - g.minV) / g.deltaV;
    Vec2((1.0 - alphaU) * u + alphaU * eastU, (1.0 - alphaV) * v + alphaV * northV)
  }

  /**
   * Interpolation inside a cell: the x-component runs from the cell's own U sample on the west
   * face to the east neighbour's on the east face, the y-component from the own V sample on the
   * south face to the north neighbour's on the north face, and both stay between their samples.
   */
  function Interpolate(g: Geometry, p: Vec2, u: real, eastU: real, v: real, northV: real): (r: Vec2)
    requires g.Proper()
    ensures p.x == g.minU ==> r.x == u
    ensures p.x == g.maxU ==> r.x == eastU
    ensures p.y == g.minV ==> r.y == v
    ensures p.y == g.maxV ==> r.y == northV
    ensures g.Contains(p) ==> Between(r.x, u, eastU) && Between(r.y, v, northV)
  {
    if g.Contains(p) then
      UnitFraction(p.x - g.minU, g.deltaU);
      UnitFraction(p.y - g.minV, g.deltaV);
      ConvexCombination((p.x - g.minU) / g.deltaU, u, eastU);
      ConvexCombination((p.y - g.minV) / g.deltaV, v, northV);
      Weighted(g, p, u, eastU, v, northV)
    else
      Weighted(g, p, u, eastU, v, northV)
  }

  /** At the centre of a cell each component is the mean of its two samples. */
  lemma InterpolateAtCentre(g: Geometry, u: real, eastU: real, v: real, northV: real)
    requires g.Proper()
    ensures Interpolate(g, g.centre, u, eastU, v, northV) == Vec2((u + eastU) / 2.0, (v + northV) / 2.0)
  {
    GeometryLayout(Vec2(g.minU, g.minV), Vec2(g.maxU, g.maxV));
    assert (g.centre.x - g.minU) / g.deltaU == 0.5;
    assert (g.centre.y - g.minV) / g.deltaV == 0.5;
  }

  /** The interpolation as written: the north term of the y-component is weighted by alphaU. */
  function InterpolateAsWritten(g: Geometry, p: Vec2, u: real, eastU: real, v: real, northV: real): Vec2
    requires g.deltaU != 0.0 && g.deltaV != 0.0
  {
    var alphaU := (p.x - g.minU) / g.deltaU;
    var alphaV := (p.y - g.minV) / g.deltaV;
    Vec2((1.0 - alphaU) * u + alphaU * eastU, (1.0 - alphaV) * v + alphaU * northV)
  }

  /**
   * At the north-west corner of any cell, which lies on the north face, the y-component as
   * written is 0 whatever the samples, where the intended value is the north neighbour's V.
   */
  lemma InterpolateAsWrittenMissesNorthFace(g: Geometry, u: real, eastU: real, v: real, northV: real)
    requires g.Proper()
    ensures InterpolateAsWritten(g, Vec2(g.minU, g.maxV), u, eastU, v, northV).y == 0.0
    ensures Interpolate(g, Vec2(g.minU, g.maxV), u, eastU, v, northV).y == northV
  {
    assert g.deltaV == g.maxV - g.minV && g.deltaV > 0.0;
    assert (g.minU - g.minU) / g.deltaU == 0.0;
    assert (g.maxV - g.minV) / g.deltaV == 1.0;
  }

  /**
   * Every grid cell is stored through the copy as written, so on a cell that is not square
   * the y-component at the north-west corner is `(1 - deltaV / deltaU) * v`: it still takes
   * nothing from the north sample.
   */
  lemma InterpolateAsWrittenCopiedCell(g: Geometry, u: real, eastU: real, v: real, northV: real)
    requires g.Proper()
    ensures CopyAsWritten(g).deltaU != 0.0 && CopyAsWritten(g).deltaV != 0.0
    ensures InterpolateAsWritten(CopyAsWritten(g), Vec2(g.minU, g.maxV), u, eastU, v, northV).y ==
            (1.0 - g.deltaV / g.deltaU) * v
  {
    var c := CopyAsWritten(g);
    assert c.deltaV == g.deltaU && g.deltaU > 0.0;
    assert (g.minU - g.minU) / g.deltaU == 0.0;
    assert (g.maxV - g.minV) / c.deltaV == g.deltaV / g.deltaU;
  }

  /** Slot `n` of `a`, or 0 for a missing neighbour. */
  function SlotOrZero(a: array<real>, n: Option<nat>): real
    reads a
    requires n.Some? ==> n.value < a.Length
  {
    if n.None? then 0.0 else a[n.value]
  }

  ghost predicate AllZero(a: array<real>)
    reads a
  {
    forall i :: 0 <= i < a.Length ==> a[i] == 0.0
  }

  /**
   * The grid-wide arrays that the cells alias (initial, current and delta velocity in U and V,
   * and pressure), all of length `size`, and the grid's cells.
   */
  class Storage {
    const size: nat
    const initialVelocityU: array<real>
    const velocityU: array<real>
    const deltaVelocityU: array<real>
    const initialVelocityV: array<real>
    const velocityV: array<real>
    const deltaVelocityV: array<real>
    const pressure: array<real>
    var cells: seq<Cell>

    /** Seven distinct arrays of length `size`. */
    predicate Arrays()
    {
      initialVelocityU.Length == size && velocityU.Length == size && deltaVelocityU.Length == size &&
      initialVelocityV.Length == size && velocityV.Length == size && deltaVelocityV.Length == size &&
      pressure.Length == size &&
      initialVelocityU != velocityU && initialVelocityU != deltaVelocityU &&
      initialVelocityU != initialVelocityV && initialVelocityU != velocityV &&
      initialVelocityU != deltaVelocityV && initialVelocityU != pressure &&
      velocityU != deltaVelocityU && velocityU != initialVelocityV && velocityU != velocityV &&
      velocityU != deltaVelocityV && velocityU != pressure &&
      deltaVelocityU != initialVelocityV && deltaVelocityU != velocityV &&
      deltaVelocityU != deltaVelocityV && deltaVelocityU != pressure &&
      initialVelocityV != velocityV && initialVelocityV != deltaVelocityV && initialVelocityV != pressure &&
      velocityV != deltaVelocityV && velocityV != pressure &&
      deltaVelocityV != pressure
    }

    /** Cell `i` of the storage is wired to slot `i` of this storage. */
    ghost predicate Valid()
      reads this
    {
      Arrays() && |cells| == size &&
      forall i :: 0 <= i < |cells| ==> cells[i].store == this && cells[i].index == i
    }

    /** The arrays are resized to `size` and filled with zeros; no cells yet. */
    constructor(size: nat)
      ensures this.size == size && Arrays() && cells == []
      ensures fresh(initialVelocityU) && fresh(velocityU) && fresh(deltaVelocityU)
      ensures fresh(initialVelocityV) && fresh(velocityV) && fresh(deltaVelocityV) && fresh(pressure)
      ensures AllZero(initialVelocityU) && AllZero(velocityU) && AllZero(deltaVelocityU)
      ensures AllZero(initialVelocityV) && AllZero(velocityV) && AllZero(deltaVelocityV) && AllZero(pressure)
    {
      this.size := size;
      initialVelocityU := new real[size](_ => 0.0);
      velocityU := new real[size](_ => 0.0);
      deltaVelocityU := new real[size](_ => 0.0);
      initialVelocityV := new real[size](_ => 0.0);
      velocityV := new real[size](_ => 0.0);
      deltaVelocityV := new real[size](_ => 0.0);
      pressure := new real[size](_ => 0.0);
      cells := [];
    }
  }

  class Cell {
    const store: Storage
    const index: nat
    const geometry: Geometry
    const neighbours: Neighbours
    var cellLabel: Label
    var status: Status
    var particles: seq<Particle<Cell?>>
    /** None while indeterminate: no constructor initialises the count. */
    var particleCount: Option<nat>
    var particlePoolSize: nat

    /**
     * A cell starts EMPTY and INACTIVE with no particles, an indeterminate particle count and
     * a pool size of 0, its geometry computed from its corners.
     */
    constructor(store: Storage, index: nat, min: Vec2, max: Vec2, neighbours: Neighbours)
      ensures this.store == store && this.index == index && this.neighbours == neighbours
      ensures geometry == MakeGeometry(min, max)
      ensures cellLabel == Empty && status == Inactive
      ensures particles == [] && particleCount == None && particlePoolSize == 0
    {
      this.store := store;
      this.index := index;
      this.geometry := MakeGeometry(min, max);
      this.neighbours := neighbours;
      cellLabel := Empty;
      status := Inactive;
      particles := [];
      particleCount := None;
      particlePoolSize := 0;
    }

    /** Its own slot and its neighbours' slots exist in the arrays. */
    predicate Sound()
    {
      store.Arrays() && index < store.size && neighbours.Below(store.size)
    }

    function VelocityU(): real
      reads store.velocityU
      requires Sound()
    {
      store.velocityU[index]
    }

    function VelocityV(): real
      reads store.velocityV
      requires Sound()
    {
      store.velocityV[index]
    }

    function DeltaVelocityU(): real
      reads store.deltaVelocityU
      requires Sound()
    {
      store.deltaVelocityU[index]
    }

    function DeltaVelocityV(): real
      reads store.deltaVelocityV
      requires Sound()
    {
      store.deltaVelocityV[index]
    }

    function InitialVelocityU(): real
      reads store.initialVelocityU
      requires Sound()
    {
      store.initialVelocityU[index]
    }

    function InitialVelocityV(): real
      reads store.initialVelocityV
      requires Sound()
    {
      store.initialVelocityV[index]
    }

    function Pressure(): real
      reads store.pressure
      requires Sound()
    {
      store.pressure[index]
    }

    /**
     * Samples the staggered field held in `us` and `vs` at `p`: a range error when `p` is
     * outside the cell; otherwise the own U sample on the west face, the east neighbour's on
     * the east face (0 without one), the own V sample on the south face, the north neighbour's
     * on the north face (0 without one), and values between them inside.
     */
    function Sample(us: array<real>, vs: array<real>, p: Vec2): (r: Result<Vec2, Fault>)
      reads us, vs
      requires Sound() && geometry.Proper()
      requires us.Length == store.size && vs.Length == store.size
      ensures r.Failure? <==> !geometry.Contains(p)
      ensures r.Failure? ==> r.error == RangeError
      ensures r.Success? && p.x == geometry.minU ==> r.value.x == us[index]
      ensures r.Success? && p.x == geometry.maxU ==> r.value.x == SlotOrZero(us, neighbours.east)
      ensures r.Success? && p.y == geometry.minV ==> r.value.y == vs[index]
      ensures r.Success? && p.y == geometry.maxV ==> r.value.y == SlotOrZero(vs, neighbours.north)
      ensures r.Success? ==> Between(r.value.x, us[index], SlotOrZero(us, neighbours.east))
      ensures r.Success? ==> Between(r.value.y, vs[index], SlotOrZero(vs, neighbours.north))
    {
      if !geometry.Contains(p) then Failure(RangeError)
      else Success(Interpolate(geometry, p, us[index], SlotOrZero(us, neighbours.east),
                               vs[index], SlotOrZero(vs, neighbours.north)))
    }

    /** The velocity at `p` (cell.cpp velocity). */
    function Velocity(p: Vec2): Result<Vec2, Fault>
      reads store.velocityU, store.velocityV
      requires Sound() && geometry.Proper()
    {
      Sample(store.velocityU, store.velocityV, p)
    }

    /** The velocity change at `p` (cell.cpp deltaVelocity). */
    function DeltaVelocity(p: Vec2): Result<Vec2, Fault>
      reads store.deltaVelocityU, store.deltaVelocityV
      requires Sound() && geometry.Proper()
    {
      Sample(store.deltaVelocityU, store.deltaVelocityV, p)
    }

    /** Forward differences of U toward the east face and of V toward the north face. */
    function Divergence(): real
      reads store.velocityU, store.velocityV
      requires Sound()
    {
      (SlotOrZero(store.velocityU, neighbours.east) - store.velocityU[index]) +
      (SlotOrZero(store.velocityV, neighbours.north) - store.velocityV[index])
    }

    /**
     * The divergence is the net outflow through the four faces of the interpolated velocity,
     * sampled at the half-edges: east minus west in U plus north minus south in V.
     */
    lemma DivergenceIsNetFaceFlux()
      requires Sound() && geometry.Proper()
      ensures Velocity(geometry.halfEdgeE).Success? && Velocity(geometry.halfEdgeW).Success?
      ensures Velocity(geometry.halfEdgeN).Success? && Velocity(geometry.halfEdgeS).Success?
      ensures Divergence() ==
        (Velocity(geometry.halfEdgeE).value.x - Velocity(geometry.halfEdgeW).value.x) +
        (Velocity(geometry.halfEdgeN).value.y - Velocity(geometry.halfEdgeS).value.y)
    {
      GeometryLayout(Vec2(geometry.minU, geometry.minV), Vec2(geometry.maxU, geometry.maxV));
    }

    method SetLabel(l: Label)
      modifies this`cellLabel
      ensures cellLabel == l
    {
      cellLabel := l;
    }

    method SetStatus(s: Status)
      modifies this`status
      ensures status == s
    {
      status := s;
    }

    /** Writes `m` to this cell's initial-U slot and to its current-U slot. */
    method SetInitialVelocityU(m: real)
      requires Sound()
      modifies store.initialVelocityU, store.velocityU
      ensures store.initialVelocityU[..] == old(store.initialVelocityU[..])[index := m]
      ensures store.velocityU[..] == old(store.velocityU[..])[index := m]
    {
      store.initialVelocityU[index] := m;
      SetVelocityU(m);
    }

    /** Writes `m` to this cell's current-U slot only. */
    method SetVelocityU(m: real)
      requires Sound()
      modifies store.velocityU
      ensures store.velocityU[..] == old(store.velocityU[..])[index := m]
    {
      store.velocityU[index] := m;
    }

    /** Writes `m` to this cell's initial-V slot and to its current-V slot. */
    method SetInitialVelocityV(m: real)
      requires Sound()
      modifies store.initialVelocityV, store.velocityV
      ensures store.initialVelocityV[..] == old(store.initialVelocityV[..])[index := m]
      ensures store.velocityV[..] == old(store.velocityV[..])[index := m]
    {
      store.initialVelocityV[index] := m;
      SetVelocityV(m);
    }

    /** Writes `m` to this cell's current-V slot only. */
    method SetVelocityV(m: real)
      requires Sound()
      modifies store.velocityV
      ensures store.velocityV[..] == old(store.velocityV[..])[index := m]
    {
      store.velocityV[index] := m;
    }

    /** Writes `m` to this cell's pressure slot only. */
    method SetPressure(m: real)
      requires Sound()
      modifies store.pressure
      ensures store.pressure[..] == old(store.pressure[..])[index := m]
    {
      store.pressure[index] := m;
    }

    method ResetParticleCount()
      modifies this`particleCount
      ensures particleCount == Some(0)
    {
      particleCount := Some(0);
    }

    /** Adds one to a determinate count; an indeterminate count stays indeterminate. */
    method IncrementParticleCount()
      modifies this`particleCount
      ensures old(particleCount).Some? ==> particleCount == Some(old(particleCount).value + 1)
      ensures old(particleCount).None? ==> particleCount == None
    {
      if particleCount.Some? {
        particleCount := Some(particleCount.value + 1);
      }
    }

    method SetParticlePoolSize(size: nat)
      modifies this`particlePoolSize
      ensures particlePoolSize == size
    {
      particlePoolSize := size;
    }

    /** The neighbour pointer for `n`: the grid's cell at that index, or null. */
    function Handle(n: Option<nat>): (c: Cell?)
      reads store
      requires store.Valid() && (n.Some? ==> n.value < store.size)
      ensures c == null <==> n.None?
      ensures c != null ==> c in store.cells && c.index == n.value
    {
      if n.None? then null else store.cells[n.value]
    }

    /** The neighbour pointers in the order the neighbour map is iterated: E, N, S, W. */
    function NeighbourHandles(): (hs: seq<Cell?>)
      reads store
      requires store.Valid() && Sound()
      ensures |hs| == 4
      ensures forall k :: 0 <= k < 4 && hs[k] != null ==> hs[k] in store.cells
    {
      [Handle(neighbours.east), Handle(neighbours.north), Handle(neighbours.south), Handle(neighbours.west)]
    }

    predicate HasActiveNeighbour()
      reads store, store.cells
      requires store.Valid() && Sound()
    {
      exists k :: 0 <= k < 4 && NeighbourHandles()[k] != null && NeighbourHandles()[k].status == Active
    }

    /**
     * JOIN for this cell: the particle becomes a guest, the cell ACTIVE, and every neighbour
     * pointer (null ones included) not yet observing the particle is subscribed to it.
     * LEAVE for this cell: every occurrence of the particle leaves the guests, and the cell turns
     * INACTIVE when none is left. LEAVE for another cell: the cell unsubscribes itself from the
     * particle when none of its neighbours is ACTIVE. JOIN for another cell changes nothing.
     */
    method OnNotify(entity: Particle<Cell?>, event: Event)
      requires store.Valid() && Sound()
      modifies this`particles, this`status, entity`observers
      ensures event.kind == JoinCell && event.cellIndex == index ==>
        particles == old(particles) + [entity] && status == Active &&
        entity.observers == SubscribeAll(old(entity.observers), NeighbourHandles())
      ensures event.kind == JoinCell && event.cellIndex != index ==>
        particles == old(particles) && status == old(status) && entity.observers == old(entity.observers)
      ensures event.kind == LeaveCell && event.cellIndex == index ==>
        particles == Without(old(particles), entity) &&
        status == (if particles == [] then Inactive else old(status)) &&
        entity.observers == old(entity.observers)
      ensures event.kind == LeaveCell && event.cellIndex != index ==>
        particles == old(particles) && status == old(status) &&
        entity.observers == (if old(HasActiveNeighbour()) then old(entity.observers)
                             else Without(old(entity.observers), this))
    {
      match event.kind
      case JoinCell =>
        if event.cellIndex == index {
          particles := particles + [entity];
          status := Active;
          var hs := NeighbourHandles();
          for k := 0 to 4
            invariant particles == old(particles) + [entity] && status == Active
            invariant entity.observers == SubscribeAll(old(entity.observers), hs[..k])
          {
            var observing := entity.IsObserver(hs[k]);
            if !observing {
              entity.AddObserver(hs[k]);
            }
            assert hs[..k + 1][..k] == hs[..k];
          }
          assert hs[..4] == hs;
        }
      case LeaveCell =>
        if event.cellIndex == index {
          particles := EraseAll(particles, entity);
          if |particles| == 0 {
            status := Inactive;
          }
        } else {
          var hs := NeighbourHandles();
          var remove := true;
          for k := 0 to 4
            invariant remove <==> forall j :: 0 <= j < k ==> hs[j] == null || hs[j].status != Active
          {
            if hs[k] != null && hs[k].status == Active {
              remove := false;
            }
          }
          if remove {
            entity.RemoveObserver(this);
          }
        }
    }
  }
}
