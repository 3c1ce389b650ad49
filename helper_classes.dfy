/** HelperClasses.py: the plain value records (material, light, the camera's frustum)
    and the pixel enumeration of the renderer. */
module HelperClasses {
  import opened Linear
  import opened Wrappers

  datatype Material = Material(name: Option<string>, diffuse: Vec3, specular: Vec3,
                               ambient: Vec3, hardness: real)

  /** The optional entries of a material's parameter dictionary. */
  datatype MaterialParams = MaterialParams(name: Option<string>, diffuse: Option<Vec3>,
                                           specular: Option<Vec3>, ambient: Option<Vec3>,
                                           hardness: Option<real>)

  function GetOr<T>(o: Option<T>, default: T): T
  {
    match o
    case Some(v) => v
    case None => default
  }

  /** `Material.__init__`: every missing entry takes its default; a missing ambient
      colour is the diffuse colour. */
  function MakeMaterial(params: MaterialParams): (m: Material)
    ensures params.diffuse.None? ==> m.diffuse == Vec3(1.0, 0.0, 0.0)
    ensures params.specular.None? ==> m.specular == Vec3(0.5, 0.5, 0.5)
    ensures params.hardness.None? ==> m.hardness == 50.0
    ensures params.ambient.None? ==> m.ambient == m.diffuse
    ensures params.ambient.Some? ==> m.ambient == params.ambient.value
    ensures params.diffuse.Some? ==> m.diffuse == params.diffuse.value
    ensures params.specular.Some? ==> m.specular == params.specular.value
    ensures params.hardness.Some? ==> m.hardness == params.hardness.value
    ensures m.name == params.name
  {
    var diffuse := GetOr(params.diffuse, Vec3(1.0, 0.0, 0.0));
    Material(params.name, diffuse, GetOr(params.specular, Vec3(0.5, 0.5, 0.5)),
             GetOr(params.ambient, diffuse), GetOr(params.hardness, 50.0))
  }

  datatype Light = Light(name: Option<string>, color: Vec3, pointFrom: Vec3, power: real, kind: string)

  datatype LightParams = LightParams(name: Option<string>, color: Option<Vec3>, pointFrom: Option<Vec3>,
                                     power: Option<real>, kind: Option<string>)

  /** `Light.__init__`: a white point light of power 1 at (0, 5, 5) unless told otherwise. */
  function MakeLight(params: LightParams): (l: Light)
    ensures params.color.None? ==> l.color == Vec3(1.0, 1.0, 1.0)
    ensures params.pointFrom.None? ==> l.pointFrom == Vec3(0.0, 5.0, 5.0)
    ensures params.power.None? ==> l.power == 1.0
    ensures params.kind.None? ==> l.kind == "point"
    ensures params.color.Some? ==> l.color == params.color.value
    ensures params.pointFrom.Some? ==> l.pointFrom == params.pointFrom.value
    ensures params.power.Some? ==> l.power == params.power.value
    ensures params.kind.Some? ==> l.kind == params.kind.value
    ensures l.name == params.name
  {
    Light(params.name, GetOr(params.color, Vec3(1.0, 1.0, 1.0)), GetOr(params.pointFrom, Vec3(0.0, 5.0, 5.0)),
          GetOr(params.power, 1.0), GetOr(params.kind, "point"))
  }

  /** The camera's projection parameters. */
  datatype Frustum = Frustum(aspect: real, top: real, bottom: real, right: real, left: real)

  /** The frustum part of `__compute_projection_view_parameters__`. `tanHalfFov` stands
      for `tan(0.5 * radians(fov))`. A zero image height makes the aspect division fail. */
  function ComputeFrustum(imageWidth: int, imageHeight: int, near: real, tanHalfFov: real): (f: Option<Frustum>)
    ensures f.Some? <==> imageHeight != 0
    ensures f.Some? ==> f.value.aspect * (imageHeight as real) == imageWidth as real
    ensures f.Some? ==> f.value.top == near * tanHalfFov && f.value.bottom == -f.value.top
    ensures f.Some? ==> f.value.right == f.value.top * f.value.aspect && f.value.left == -f.value.right
  {
    if imageHeight == 0 then None
    else
      var aspect := (imageWidth as real) / (imageHeight as real);
      var top := near * tanHalfFov;
      var right := top * aspect;
      Some(Frustum(aspect, top, -top, right, -right))
  }

  /** The near-plane window is centred on the view axis and has the image's shape. */
  lemma FrustumHasImageShape(imageWidth: int, imageHeight: int, near: real, tanHalfFov: real)
    requires imageHeight != 0
    ensures var f := ComputeFrustum(imageWidth, imageHeight, near, tanHalfFov).value;
            f.left + f.right == 0.0 && f.bottom + f.top == 0.0 &&
            (f.right - f.left) * (imageHeight as real) == (f.top - f.bottom) * (imageWidth as real)
  {
    var f := ComputeFrustum(imageWidth, imageHeight, near, tanHalfFov).value;
    calc {
      (f.right - f.left) * (imageHeight as real);
      2.0 * f.top * (f.aspect * (imageHeight as real));
      2.0 * f.top * (imageWidth as real);
      (f.top - f.bottom) * (imageWidth as real);
    }
  }

  /** A pixel as `[col, row]`. */
  datatype Pixel = Pixel(col: nat, row: nat)

  /** The first `n` pixels of image row `row`, left to right. */
  function RowPixels(row: nat, n: nat): (r: seq<Pixel>)
    ensures |r| == n
    ensures forall i :: 0 <= i < n ==> r[i] == Pixel(i, row)
  {
    if n == 0 then [] else RowPixels(row, n - 1) + [Pixel(n - 1, row)]
  }

  /** The first `rows` rows of an image `width` pixels wide, top to bottom. */
  function Grid(width: nat, rows: nat): (r: seq<Pixel>)
    ensures |r| == width * rows
    ensures forall k :: 0 <= k < |r| ==> r[k].col < width && r[k].row < rows
  {
    if rows == 0 then [] else Grid(width, rows - 1) + RowPixels(rows - 1, width)
  }

  /** `Render.getPixel`: rows in the outer loop, columns in the inner loop. */
  method GetPixels(width: nat, height: nat) returns (pixels: seq<Pixel>)
    ensures pixels == Grid(width, height)
  {
    pixels := [];
    var row := 0;
    while row < height
      invariant row <= height
      invariant pixels == Grid(width, row)
    {
      var col := 0;
      while col < width
        invariant col <= width
        invariant pixels == Grid(width, row) + RowPixels(row, col)
      {
        pixels := pixels + [Pixel(col, row)];
        col := col + 1;
      }
      row := row + 1;
    }
  }

  /** Pixel (col, row) of the image sits at position row * width + col. */
  lemma {:induction false} GridRowMajor(width: nat, rows: nat, col: nat, row: nat)
    requires col < width && row < rows
    ensures row * width + col < |Grid(width, rows)|
    ensures Grid(width, rows)[row * width + col] == Pixel(col, row)
  {
    var g, last := Grid(width, rows - 1), RowPixels(rows - 1, width);
    assert Grid(width, rows) == g + last;
    RowOffset(width, rows, col, row);
    if row < rows - 1 {
      GridRowMajor(width, rows - 1, col, row);
    } else {
      assert (g + last)[row * width + col] == last[col];
    }
  }

  /** Where position `row * width + col` falls: inside the first `rows - 1` rows, or
      at `col` within the last. */
  lemma RowOffset(width: nat, rows: nat, col: nat, row: nat)
    requires col < width && row < rows
    ensures width * rows == width * (rows - 1) + width
    ensures row < rows - 1 ==> row * width + col < width * (rows - 1)
    ensures row == rows - 1 ==> row * width + col == width * (rows - 1) + col
  {
    var n := rows - 1;
    assert width * rows == width * n + width;
    if row < n {
      calc {
        row * width + col;
      <
        row * width + width;
      ==
        (row + 1) * width;
      <= { MulMonotone(row + 1, n, width); }
        n * width;
      }
    }
  }

  lemma MulMonotone(a: nat, b: nat, w: nat)
    requires a <= b
    ensures a * w <= b * w
  {
    assert b * w == a * w + (b - a) * w;
  }

  /** No pixel comes twice. */
  lemma {:induction false} GridDistinct(width: nat, rows: nat)
    ensures forall i, j :: 0 <= i < j < |Grid(width, rows)| ==> Grid(width, rows)[i] != Grid(width, rows)[j]
  {
    if rows > 0 {
      GridDistinct(width, rows - 1);
      var g: seq<Pixel>, last: seq<Pixel> := Grid(width, rows - 1), RowPixels(rows - 1, width);
      assert Grid(width, rows) == g + last;
      forall i, j | 0 <= i < j < |g + last| ensures (g + last)[i] != (g + last)[j] {
        if j < |g| {
        } else if i < |g| {
          assert g[i].row < rows - 1;
        }
      }
    }
  }

  /** The pixels are exactly the image's pixels, each once. */
  lemma PixelsEnumerateImage(width: nat, height: nat)
    ensures forall col: nat, row: nat :: col < width && row < height ==> Pixel(col, row) in Grid(width, height)
    ensures forall p :: p in Grid(width, height) ==> p.col < width && p.row < height
    ensures forall i, j :: 0 <= i < j < |Grid(width, height)| ==> Grid(width, height)[i] != Grid(width, height)[j]
  {
    forall col: nat, row: nat | col < width && row < height
      ensures Pixel(col, row) in Grid(width, height)
    {
      GridRowMajor(width, height, col, row);
    }
    GridDistinct(width, height);
  }
}
