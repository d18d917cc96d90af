/** Pieces of matched travel and checked int64 arithmetic (road_bins.cpp). */
module RoadBinTypes {
  import opened Wrappers

  datatype Error = TimeOverflow | NoProgress | BudgetExceeded

  /** One stretch of travel inside one longitudinal bin. */
  datatype Piece = Piece(arc: nat, bin: nat, road: string, sequence: string, start: int, end: int,
                         entry: real, exit: real, startSpeed: real, endSpeed: real, yaw: real, ordinal: nat)
  {
    function Duration(): int { end - start }
  }

  function CheckedDifference(end: int, start: int): Result<int, Error> {
    if INT64_MIN <= end - start <= INT64_MAX then Ok(end - start) else Err(TimeOverflow)
  }

  function CheckedAdd(left: int, right: int): Result<int, Error> {
    if INT64_MIN <= left + right <= INT64_MAX then Ok(left + right) else Err(TimeOverflow)
  }

  function TotalDuration(pieces: seq<Piece>): int {
    if pieces == [] then 0 else TotalDuration(pieces[..|pieces| - 1]) + pieces[|pieces| - 1].Duration()
  }

  lemma TotalDurationSnoc(pieces: seq<Piece>, p: Piece)
    ensures TotalDuration(pieces + [p]) == TotalDuration(pieces) + p.Duration()
  {
    assert (pieces + [p])[..|pieces|] == pieces;
  }
}
