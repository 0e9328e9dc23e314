/** The settings `FaceMask` accepts (core/facemask.go, `ResizeAlg`, `Options`, `Processor`). */
module Config {
  import opened Wrappers

  /** `ResizeAlg` is a Go `int`; the five named values are 0..4 and any other int can be passed. */
  newtype ResizeAlg = int

  /** The zero value, and so the default. */
  const Caire: ResizeAlg := 0
  const NearestNeighbor: ResizeAlg := 1
  const ApproxBiLinear: ResizeAlg := 2
  const BiLinear: ResizeAlg := 3
  const CatmullRom: ResizeAlg := 4

  /**
   * The dynamic value held by the `interface{}` fields `NewHeight` and `NewWidth`:
   * `nil`, an `int`, a `float64`, or a value of any other type.
   */
  datatype DimOption = Absent | Abs(n: int) | Pct(p: real) | Other

  /**
   * A stand-in for the style a `TriangleConfig` returns, keeping the two parameters the source
   * names as the relevant ones; the core passes the style to the triangulator unread.
   */
  datatype Processor = Processor(maxPoints: int, blurRadius: int)

  /** `Processor{}`, used for every face when no `TriangleConfig` is given. */
  const DefaultProcessor := Processor(0, 0)

  /**
   * `TriangleConfig(QRank, facearea, Q, h, w)`: a style for the face, or `None` (a nil pointer)
   * to leave the face untouched.
   */
  type Policy = (int, int, real, int, int) -> Option<Processor>

  datatype Options = Options(newHeight: DimOption, newWidth: DimOption, triangleConfig: Option<Policy>, resizeAlg: ResizeAlg)

  /** `FaceMask(input, opts...)` reads only `opts[0]`, when there is one. */
  function Given(opts: seq<Options>): Option<Options>
  {
    if |opts| > 0 then Some(opts[0]) else None
  }

  /** Options after the first are ignored, and without any the run has no options. */
  lemma OnlyFirstOptionsRead(first: Options, rest: seq<Options>)
    ensures Given([first] + rest) == Given([first]) == Some(first)
    ensures Given([]) == None
  {
  }
}
