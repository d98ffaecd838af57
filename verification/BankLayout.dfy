/** Where the bytes of an NVFP4 expert bank are: packed codes, swizzled scales, one divisor per
    expert, as the bank view, the routed replay and the extractor compute it. */
module BankLayout {
  import opened Radix

  function AlignUp(value: nat, alignment: nat): nat
    requires alignment > 0
  {
    (value + alignment - 1) / alignment * alignment
  }

  /** The numbers a bank view computes once. */
  datatype View = View(experts: nat, rows: nat, columns: nat, codePlane: nat, scaleOffset: nat, scalePlane: nat,
                       divisorOffset: nat, codesPerExpert: nat, scalesPerExpert: nat)

  datatype Result = Ok(view: View) | InvalidGeometry | WrongSize

  predicate GoodGeometry(experts: int, rows: int, columns: int) {
    experts > 0 && rows > 0 && columns > 0 && rows % 128 == 0 && columns % 64 == 0
  }

  function ViewOf(experts: nat, rows: nat, columns: nat): View {
    var elements := experts * rows * columns;
    var scaleOffset := AlignUp(elements / 2, 256);
    View(experts, rows, columns, elements / 2, scaleOffset, elements / 16, scaleOffset + elements / 16,
         rows * columns / 2, rows * columns / 16)
  }

  function TotalBytes(v: View): nat { v.divisorOffset + v.experts * 4 }

  function MakeView(present: bool, bytes: nat, experts: int, rows: int, columns: int): Result {
    if !present || !GoodGeometry(experts, rows, columns) then InvalidGeometry
    else
      var v := ViewOf(experts, rows, columns);
      if bytes != TotalBytes(v) then WrongSize else Ok(v)
  }

  // ----- addresses -----

  /** A code byte holds two columns; a scale covers sixteen; a divisor has four bytes. */
  datatype Address = Code(expert: nat, row: nat, byte: nat)
                   | Scale(expert: nat, row: nat, group: nat)
                   | Divisor(expert: nat, byte: nat)

  predicate Valid(v: View, a: Address) {
    match a
    case Code(e, r, k) => e < v.experts && r < v.rows && k < v.columns / 2
    case Scale(e, r, g) => e < v.experts && r < v.rows && g < v.columns / 16
    case Divisor(e, b) => e < v.experts && b < 4
  }

  function ScaleRowBase(row: nat, columns: nat): nat {
    row / 128 * (columns / 64) * 512 + row % 128 % 32 * 16 + row % 128 / 32 * 4
  }

  function ScaleByte(base: nat, group: nat): nat { base + group / 4 * 512 + group % 4 }

  /** The byte of the payload that holds an address. */
  function Offset(v: View, a: Address): nat {
    match a
    case Code(e, r, k) => e * v.codesPerExpert + (r * (v.columns / 2) + k)
    case Scale(e, r, g) => v.scaleOffset + (e * v.scalesPerExpert + ScaleByte(ScaleRowBase(r, v.columns), g))
    case Divisor(e, b) => v.divisorOffset + (e * 4 + b)
  }

  /** The address a byte of the payload holds. */
  function Located(v: View, n: nat): Address
    requires v.codesPerExpert > 0 && v.scalesPerExpert > 0 && v.columns >= 64
  {
    if n < v.scaleOffset then
      var x := Rem(n, v.codesPerExpert);
      Code(Quot(n, v.codesPerExpert), Quot(x, v.columns / 2), Rem(x, v.columns / 2))
    else if n < v.divisorOffset then
      var y := n - v.scaleOffset;
      Unswizzled(Quot(y, v.scalesPerExpert), Rem(y, v.scalesPerExpert), v.columns / 64)
    else
      var y := n - v.divisorOffset;
      Divisor(y / 4, y % 4)
  }

  function Unswizzled(expert: nat, x: nat, across: nat): Address
    requires across > 0
  {
    var tile, inner := x / 512, x % 512;
    Scale(expert, Quot(tile, across) * 128 + (inner % 16 / 4 * 32 + inner / 16), Rem(tile, across) * 4 + inner % 4)
  }

  // ----- geometries in tiles of 128 rows by 64 columns -----

  lemma Products(d: nat, a: nat)
    ensures (d * 128) * (a * 64) == (d * a) * 8192
    ensures (d * 128) * (a * 32) == (d * a) * 4096
  {
  }

  lemma ThreeProducts(e: nat, d: nat, a: nat)
    ensures e * (d * 128) * (a * 64) == (e * (d * a)) * 8192
  {
    Products(d, a);
    assert e * (d * 128) * (a * 64) == e * ((d * 128) * (a * 64));
    assert e * ((d * a) * 8192) == (e * (d * a)) * 8192;
  }

  /** The view of a tiled geometry: planes follow one another without padding. */
  lemma TiledView(e: nat, d: nat, a: nat)
    ensures var v, tiles := ViewOf(e, d * 128, a * 64), d * a;
            && v.codesPerExpert == tiles * 4096 && v.scalesPerExpert == tiles * 512
            && v.codePlane == e * (tiles * 4096) && v.scaleOffset == v.codePlane
            && v.scalePlane == e * (tiles * 512) && v.divisorOffset == e * (tiles * 4096) + e * (tiles * 512)
  {
    var n := e * (d * a);
    Products(d, a);
    ThreeProducts(e, d, a);
    Halves(n);
    Halves(d * a);
    Regrouped(e, d * a);
  }

  lemma Halves(n: nat)
    ensures n * 8192 / 2 == n * 4096 && n * 8192 / 16 == n * 512 && AlignUp(n * 4096, 256) == n * 4096
  {
  }

  lemma Regrouped(e: nat, t: nat)
    ensures (e * t) * 4096 == e * (t * 4096) && (e * t) * 512 == e * (t * 512)
  {
  }

  lemma Tiled(rows: nat, columns: nat) returns (d: nat, a: nat)
    requires rows > 0 && columns > 0 && rows % 128 == 0 && columns % 64 == 0
    ensures d > 0 && a > 0 && rows == d * 128 && columns == a * 64
  {
    d, a := rows / 128, columns / 64;
  }

  // ----- codes -----

  lemma CodeDown(d: nat, a: nat, r: nat, k: nat)
    requires r < d * 128 && k < a * 32
    ensures var x := r * (a * 32) + k; x < d * a * 4096 && Quot(x, a * 32) == r && Rem(x, a * 32) == k
  {
    Products(d, a);
    InBlock(d * 128, a * 32, r, k);
  }

  lemma CodeUp(e: nat, d: nat, a: nat, n: nat)
    requires a > 0 && d * a > 0 && n < e * (d * a * 4096)
    ensures var size := d * a * 4096; var x := Rem(n, size);
            && Quot(n, size) < e && Quot(x, a * 32) < d * 128
            && Quot(n, size) * size + (Quot(x, a * 32) * (a * 32) + Rem(x, a * 32)) == n
  {
    var size := d * a * 4096;
    var x := Rem(n, size);
    Products(d, a);
    DigitBelow(n, e, size);
    Together(n, size);
    DigitBelow(x, d * 128, a * 32);
    Together(x, a * 32);
  }

  lemma Positive(d: nat, a: nat)
    requires d > 0 && a > 0
    ensures d * a > 0
  {
  }

  // ----- scales -----

  /** A place in a 512-byte scale tile: 32 rows of 16 bytes, each four row groups of four. */
  function Inner(row: nat, group: nat): nat { row % 32 * 16 + row / 32 * 4 + group % 4 }

  lemma InnerDown(row: nat, group: nat)
    requires row < 128
    ensures var i := Inner(row, group);
            i < 512 && i % 16 / 4 * 32 + i / 16 == row && i % 4 == group % 4
  {
    var i := Inner(row, group);
    assert i / 16 == row % 32 && i % 16 == row / 32 * 4 + group % 4;
  }

  lemma InnerUp(i: nat, across: nat)
    requires i < 512
    ensures var row := i % 16 / 4 * 32 + i / 16; row < 128 && Inner(row, across * 4 + i % 4) == i
  {
    var row := i % 16 / 4 * 32 + i / 16;
    assert row % 32 == i / 16 && row / 32 == i % 16 / 4;
  }

  lemma RowSplit(t: nat, row: nat)
    requires row < 128
    ensures (t * 128 + row) / 128 == t && (t * 128 + row) % 128 == row
  {
  }

  lemma GroupSplit(t: nat, b: nat)
    requires b < 4
    ensures (t * 4 + b) / 4 == t && (t * 4 + b) % 4 == b
  {
  }

  /** The swizzled offset is a tile number and a place in the tile. */
  lemma Swizzled(r: nat, a: nat, g: nat)
    ensures ScaleByte(ScaleRowBase(r, a * 64), g) == (r / 128 * a + g / 4) * 512 + Inner(r % 128, g)
  {
  }

  lemma TileDown(d: nat, a: nat, r: nat, g: nat)
    requires r < d * 128 && g < a * 4
    ensures var tile := r / 128 * a + g / 4; tile < d * a && Quot(tile, a) == r / 128 && Rem(tile, a) == g / 4
  {
    InBlock(d, a, r / 128, g / 4);
  }

  lemma ScaleDown(tiles: nat, tile: nat, inner: nat)
    requires tile < tiles && inner < 512
    ensures var x := tile * 512 + inner; x < tiles * 512 && x / 512 == tile && x % 512 == inner
  {
  }

  lemma ScaleUp(e: nat, d: nat, a: nat, n: nat)
    requires a > 0 && d * a > 0 && n < e * (d * a * 512)
    ensures var size := d * a * 512; var x := Rem(n, size); var tile := x / 512;
            && Quot(n, size) < e && Quot(tile, a) < d
            && Quot(n, size) * size + ((Quot(tile, a) * a + Rem(tile, a)) * 512 + x % 512) == n
  {
    var size := d * a * 512;
    var x := Rem(n, size);
    DigitBelow(n, e, size);
    Together(n, size);
    DigitBelow(x / 512, d, a);
    Together(x / 512, a);
  }

  // ----- the layout is a bijection -----

  /** The numbers of a view whose bank is d tiles high and a tiles wide. */
  ghost predicate Shape(v: View, d: nat, a: nat) {
    && d > 0 && a > 0 && d * a > 0 && v.rows == d * 128 && v.columns == a * 64
    && v.codesPerExpert == d * a * 4096 && v.scalesPerExpert == d * a * 512
    && v.scaleOffset == v.experts * (d * a * 4096) && v.divisorOffset == v.scaleOffset + v.experts * (d * a * 512)
  }

  lemma ViewShape(e: nat, d: nat, a: nat)
    requires d > 0 && a > 0
    ensures Shape(ViewOf(e, d * 128, a * 64), d, a)
  {
    TiledView(e, d, a);
    Positive(d, a);
  }

  lemma Usable(v: View, d: nat, a: nat)
    requires Shape(v, d, a)
    ensures v.codesPerExpert > 0 && v.scalesPerExpert > 0 && v.columns >= 64
    ensures v.columns / 2 == a * 32 && v.columns / 16 == a * 4 && v.columns / 64 == a
  {
  }

  lemma CodesMap(v: View, d: nat, a: nat, i: nat, r: nat, k: nat)
    requires Shape(v, d, a) && i < v.experts && r < d * 128 && k < a * 32
    requires v.codesPerExpert > 0 && v.scalesPerExpert > 0 && v.columns >= 64
    ensures Offset(v, Code(i, r, k)) < v.scaleOffset && Located(v, Offset(v, Code(i, r, k))) == Code(i, r, k)
  {
    Usable(v, d, a);
    CodeDown(d, a, r, k);
    InBlock(v.experts, v.codesPerExpert, i, r * (a * 32) + k);
  }

  lemma Unswizzle(i: nat, x: nat, a: nat, r: nat, g: nat)
    requires a > 0 && x / 512 == r / 128 * a + g / 4 && x % 512 == Inner(r % 128, g)
    requires Quot(x / 512, a) == r / 128 && Rem(x / 512, a) == g / 4
    ensures Unswizzled(i, x, a) == Scale(i, r, g)
  {
    InnerDown(r % 128, g);
  }

  /** The swizzle stays inside the expert's scales and can be undone. */
  lemma SwizzleRoundTrip(d: nat, a: nat, i: nat, r: nat, g: nat)
    requires a > 0 && r < d * 128 && g < a * 4
    ensures var x := ScaleByte(ScaleRowBase(r, a * 64), g); x < d * a * 512 && Unswizzled(i, x, a) == Scale(i, r, g)
  {
    var tile, inner := r / 128 * a + g / 4, Inner(r % 128, g);
    Swizzled(r, a, g);
    InnerDown(r % 128, g);
    TileDown(d, a, r, g);
    ScaleDown(d * a, tile, inner);
    Unswizzle(i, tile * 512 + inner, a, r, g);
  }

  lemma ScalesMap(v: View, d: nat, a: nat, i: nat, r: nat, g: nat)
    requires Shape(v, d, a) && i < v.experts && r < d * 128 && g < a * 4
    requires v.codesPerExpert > 0 && v.scalesPerExpert > 0 && v.columns >= 64
    ensures v.scaleOffset <= Offset(v, Scale(i, r, g)) < v.divisorOffset
    ensures Located(v, Offset(v, Scale(i, r, g))) == Scale(i, r, g)
  {
    var x := ScaleByte(ScaleRowBase(r, v.columns), g);
    Usable(v, d, a);
    SwizzleRoundTrip(d, a, i, r, g);
    InBlock(v.experts, v.scalesPerExpert, i, x);
  }

  lemma DivisorsMap(v: View, i: nat, b: nat)
    requires v.codesPerExpert > 0 && v.scalesPerExpert > 0 && v.columns >= 64 && v.scaleOffset <= v.divisorOffset
    requires i < v.experts && b < 4
    ensures v.divisorOffset <= Offset(v, Divisor(i, b)) < TotalBytes(v)
    ensures Located(v, Offset(v, Divisor(i, b))) == Divisor(i, b)
  {
    GroupSplit(i, b);
  }

  /** Distinct addresses have distinct bytes inside the payload, and the byte says which it is. */
  lemma OffsetsAreDistinct(experts: nat, rows: nat, columns: nat, x: Address)
    requires GoodGeometry(experts, rows, columns) && Valid(ViewOf(experts, rows, columns), x)
    ensures var v := ViewOf(experts, rows, columns);
            && v.codesPerExpert > 0 && v.scalesPerExpert > 0 && v.columns >= 64
            && Offset(v, x) < TotalBytes(v) && Located(v, Offset(v, x)) == x
  {
    var v := ViewOf(experts, rows, columns);
    var d, a := Tiled(rows, columns);
    ViewShape(experts, d, a);
    Usable(v, d, a);
    match x
    case Code(i, r, k) => CodesMap(v, d, a, i, r, k);
    case Scale(i, r, g) => ScalesMap(v, d, a, i, r, g);
    case Divisor(i, b) => DivisorsMap(v, i, b);
  }

  lemma CodesCover(v: View, d: nat, a: nat, n: nat)
    requires Shape(v, d, a) && n < v.scaleOffset
    requires v.codesPerExpert > 0 && v.scalesPerExpert > 0 && v.columns >= 64
    ensures Valid(v, Located(v, n)) && Offset(v, Located(v, n)) == n
  {
    Usable(v, d, a);
    CodeUp(v.experts, d, a, n);
  }

  lemma Reswizzle(i: nat, x: nat, a: nat, d: nat)
    requires a > 0 && Quot(x / 512, a) < d
    ensures var s := Unswizzled(i, x, a);
            && s.row < d * 128 && s.group < a * 4
            && ScaleByte(ScaleRowBase(s.row, a * 64), s.group) == (Quot(x / 512, a) * a + Rem(x / 512, a)) * 512 + x % 512
  {
    var tile, inner := x / 512, x % 512;
    var t, u, row := Quot(tile, a), Rem(tile, a), inner % 16 / 4 * 32 + inner / 16;
    InnerUp(inner, u);
    RowSplit(t, row);
    GroupSplit(u, inner % 4);
    Swizzled(t * 128 + row, a, u * 4 + inner % 4);
  }

  lemma ScalesCover(v: View, d: nat, a: nat, y: nat)
    requires Shape(v, d, a) && y < v.experts * (d * a * 512)
    requires v.codesPerExpert > 0 && v.scalesPerExpert > 0 && v.columns >= 64
    ensures Valid(v, Located(v, v.scaleOffset + y)) && Offset(v, Located(v, v.scaleOffset + y)) == v.scaleOffset + y
  {
    Usable(v, d, a);
    ScaleUp(v.experts, d, a, y);
    Reswizzle(Quot(y, v.scalesPerExpert), Rem(y, v.scalesPerExpert), a, d);
  }

  /** Every byte of the payload belongs to an address. */
  lemma OffsetsCover(experts: nat, rows: nat, columns: nat, n: nat)
    requires GoodGeometry(experts, rows, columns) && n < TotalBytes(ViewOf(experts, rows, columns))
    ensures var v := ViewOf(experts, rows, columns);
            && v.codesPerExpert > 0 && v.scalesPerExpert > 0 && v.columns >= 64
            && Valid(v, Located(v, n)) && Offset(v, Located(v, n)) == n
  {
    var v := ViewOf(experts, rows, columns);
    var d, a := Tiled(rows, columns);
    ViewShape(experts, d, a);
    Usable(v, d, a);
    if n < v.scaleOffset {
      CodesCover(v, d, a, n);
    } else if n < v.divisorOffset {
      ScalesCover(v, d, a, n - v.scaleOffset);
    } else {
      var y := n - v.divisorOffset;
      assert y < experts * 4;
    }
  }

  // ----- the other two implementations -----

  const BANK_EXPERTS: nat := 512

  /** Where the routed replay looks for an expert's codes, scales and divisor. */
  function ReplayCodes(rows: nat, columns: nat, id: nat): nat { id * (rows * columns) / 2 }

  function ReplayScales(rows: nat, columns: nat, id: nat): nat {
    BANK_EXPERTS * (rows * columns) / 2 + id * (rows * columns) / 16
  }

  function ReplayDivisor(rows: nat, columns: nat, id: nat): nat {
    BANK_EXPERTS * (rows * columns) / 2 + BANK_EXPERTS * (rows * columns) / 16 + id * 4
  }

  function ReplayBytes(rows: nat, columns: nat): nat { BANK_EXPERTS * rows * columns * 9 / 16 + 2048 }

  /** The size the extractor expects. */
  function ExtractorBytes(experts: nat, rows: nat, columns: nat): nat {
    var elements := experts * rows * columns;
    AlignUp(elements / 2, 256) + elements / 16 + experts * 4
  }

  lemma ReplayTiled(d: nat, a: nat, id: nat)
    ensures var rows, columns, t := d * 128, a * 64, d * a;
            && id * (rows * columns) / 2 == id * (t * 4096) && id * (rows * columns) / 16 == id * (t * 512)
  {
    Products(d, a);
    assert id * ((d * a) * 8192) == (id * (d * a)) * 8192;
    Halves(id * (d * a));
    Regrouped(id, d * a);
  }

  lemma NineSixteenths(n: nat)
    ensures n * 8192 * 9 / 16 == n * 4096 + n * 512
  {
  }

  lemma ReplaySize(e: nat, d: nat, a: nat)
    ensures e * (d * 128) * (a * 64) * 9 / 16 == e * (d * a * 4096) + e * (d * a * 512)
  {
    ThreeProducts(e, d, a);
    NineSixteenths(e * (d * a));
    Regrouped(e, d * a);
  }

  lemma FirstScale(a: nat)
    ensures ScaleByte(ScaleRowBase(0, a * 64), 0) == 0
  {
    Swizzled(0, a, 0);
  }

  lemma FirstOffsets(v: View, id: nat, a: nat)
    requires v.columns == a * 64
    ensures Offset(v, Code(id, 0, 0)) == id * v.codesPerExpert
    ensures Offset(v, Scale(id, 0, 0)) == v.scaleOffset + id * v.scalesPerExpert
    ensures Offset(v, Divisor(id, 0)) == v.divisorOffset + id * 4
  {
    FirstScale(a);
  }

  lemma ReplayAgreesTiled(d: nat, a: nat, id: nat)
    ensures var v, rows, columns := ViewOf(BANK_EXPERTS, d * 128, a * 64), d * 128, a * 64;
            && ReplayCodes(rows, columns, id) == id * v.codesPerExpert
            && ReplayScales(rows, columns, id) == v.scaleOffset + id * v.scalesPerExpert
            && ReplayDivisor(rows, columns, id) == v.divisorOffset + id * 4
  {
    TiledView(BANK_EXPERTS, d, a);
    ReplayTiled(d, a, id);
    ReplayTiled(d, a, BANK_EXPERTS);
  }

  /** The replay's bank of 512 experts puts every plane where the bank view does. */
  lemma ReplayAgrees(rows: nat, columns: nat, id: nat)
    requires GoodGeometry(BANK_EXPERTS, rows, columns)
    ensures var v := ViewOf(BANK_EXPERTS, rows, columns);
            && ReplayCodes(rows, columns, id) == Offset(v, Code(id, 0, 0))
            && ReplayScales(rows, columns, id) == Offset(v, Scale(id, 0, 0))
            && ReplayDivisor(rows, columns, id) == Offset(v, Divisor(id, 0))
  {
    var d, a := Tiled(rows, columns);
    ReplayAgreesTiled(d, a, id);
    FirstOffsets(ViewOf(BANK_EXPERTS, rows, columns), id, a);
  }

  /** The replay accepts a bank exactly when its size is that of the view. */
  lemma ReplaySizeAgrees(rows: nat, columns: nat)
    requires GoodGeometry(BANK_EXPERTS, rows, columns)
    ensures ReplayBytes(rows, columns) == TotalBytes(ViewOf(BANK_EXPERTS, rows, columns))
  {
    var d, a := Tiled(rows, columns);
    TiledView(BANK_EXPERTS, d, a);
    ReplaySize(BANK_EXPERTS, d, a);
  }

  /** A view is made exactly of the payloads the extractor writes, and the alignment between the
      planes never adds a byte. */
  lemma ViewOfExtracted(bytes: nat, experts: nat, rows: nat, columns: nat)
    requires GoodGeometry(experts, rows, columns)
    ensures MakeView(true, bytes, experts, rows, columns).Ok? <==> bytes == ExtractorBytes(experts, rows, columns)
    ensures var v := ViewOf(experts, rows, columns);
            v.scaleOffset == v.codePlane && ExtractorBytes(experts, rows, columns) == v.codePlane + v.scalePlane + experts * 4
  {
    var d, a := Tiled(rows, columns);
    TiledView(experts, d, a);
  }
}
