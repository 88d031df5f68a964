/** The wall settings of the command line (`WallsCLI` and its conversion
    into `Walls` in src/main.rs): a wall kind plus an optional distance is
    validated into a wall policy carrying that distance. */
module WallsCli {
  import opened Wrappers

  /** The wall kind chosen on the command line. */
  datatype WallKind = NoWalls | SquareKind | WrappingKind

  /** The wall policy handed to the engine; both bounded kinds carry the
      wall distance. */
  datatype Walls = Unbounded | Square(distance: real) | Wrapping(distance: real)

  /** The error returned when a bounded kind comes without a distance. */
  const MISSING_DISTANCE: string := "Square and Wrapping walls require wall distance parameter."

  /** The conversion `(WallsCLI, Option<f32>) -> Result<Walls, &str>`. */
  function ToWalls(kind: WallKind, distance: Option<real>): (r: Result<Walls, string>)
    ensures r.Ok? <==> kind == NoWalls || distance.Some?
    ensures r.Err? ==> r.error == MISSING_DISTANCE
    ensures kind == NoWalls ==> r == Ok(Unbounded)
  {
    match (kind, distance)
    case (NoWalls, _) => Ok(Unbounded)
    case (SquareKind, Some(f)) => Ok(Square(f))
    case (WrappingKind, Some(f)) => Ok(Wrapping(f))
    case _ => Err(MISSING_DISTANCE)
  }

  /** The kind a wall policy is requested with. */
  function KindOf(w: Walls): WallKind {
    match w
    case Unbounded => NoWalls
    case Square(_) => SquareKind
    case Wrapping(_) => WrappingKind
  }

  /** The distance argument a wall policy is requested with. */
  function DistanceOf(w: Walls): Option<real> {
    match w
    case Unbounded => None
    case Square(d) => Some(d)
    case Wrapping(d) => Some(d)
  }

  /** Every wall policy can be requested: its own kind and distance convert
      back to it. */
  lemma RequestRoundTrip(w: Walls)
    ensures ToWalls(KindOf(w), DistanceOf(w)) == Ok(w)
  {
  }

  /** A successful conversion keeps the requested kind, and a bounded kind
      keeps the requested distance unchanged, whatever its sign. */
  lemma ConversionPreservesRequest(kind: WallKind, distance: Option<real>)
    requires ToWalls(kind, distance).Ok?
    ensures KindOf(ToWalls(kind, distance).value) == kind
    ensures kind != NoWalls ==> DistanceOf(ToWalls(kind, distance).value) == distance
  {
  }

  /** No distance is rejected: a non-positive distance converts like any
      other. */
  lemma AnyDistanceAccepted(kind: WallKind, f: real)
    ensures ToWalls(kind, Some(f)).Ok?
    ensures kind == SquareKind ==> ToWalls(kind, Some(f)) == Ok(Square(f))
    ensures kind == WrappingKind ==> ToWalls(kind, Some(f)) == Ok(Wrapping(f))
  {
  }
}
