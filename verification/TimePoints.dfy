/** Arithmetic on time points without leaving 64 bits (`checked_add`, `checked_difference`). */
module TimePoints {
  import opened Wrappers
  import opened DecimalTime

  datatype Epoch = UNIX_UTC | GPS | SENSOR_BOOT

  datatype TimePoint = TimePoint(value: int64, epoch: Epoch, clock: string)

  /** The guard of `checked_add`, whose own arithmetic must not overflow either. */
  function CheckedAdd(point: TimePoint, duration: int64): (r: Result<TimePoint, TimeError>)
    ensures r == if point.clock == "" then Err(InvalidArgument)
                 else if INT64_MIN <= point.value + duration <= INT64_MAX
                 then Ok(point.(value := point.value + duration))
                 else Err(Overflow)
  {
    if point.clock == "" then Err(InvalidArgument)
    else if duration > 0 && (var room: int64 := INT64_MAX - duration; point.value > room) then Err(Overflow)
    else if duration < 0 && (var room: int64 := INT64_MIN - duration; point.value < room) then Err(Overflow)
    else Ok(point.(value := point.value + duration))
  }

  function Comparable(left: TimePoint, right: TimePoint): Result<bool, TimeError> {
    if left.clock == "" || right.clock == "" then Err(InvalidArgument)
    else Ok(left.epoch == right.epoch && left.clock == right.clock)
  }

  function CheckedDifference(end: TimePoint, start: TimePoint): (r: Result<int64, TimeError>)
    ensures r == if Comparable(end, start) != Ok(true) then Err(InvalidArgument)
                 else if INT64_MIN <= end.value - start.value <= INT64_MAX then Ok(end.value - start.value)
                 else Err(Overflow)
  {
    if Comparable(end, start) != Ok(true) then Err(InvalidArgument)
    else if start.value < 0 && (var room: int64 := INT64_MAX + start.value; end.value > room) then Err(Overflow)
    else if start.value > 0 && (var room: int64 := INT64_MIN + start.value; end.value < room) then Err(Overflow)
    else Ok(end.value - start.value)
  }

  /** A frame interval is nonempty and half-open. */
  function FrameInterval(start: TimePoint, end: TimePoint): (r: Result<(TimePoint, TimePoint), TimeError>)
    ensures r.Ok? <==> Comparable(end, start) == Ok(true) && 0 < end.value - start.value <= INT64_MAX
    ensures r.Ok? ==> r.value == (start, end)
    ensures r.Err? && Comparable(end, start) == Ok(true) ==>
      (r.error.Overflow? <==> !(INT64_MIN <= end.value - start.value <= INT64_MAX))
  {
    var duration := CheckedDifference(end, start);
    if duration.Err? then Err(duration.error)
    else if duration.value <= 0 then Err(InvalidArgument)
    else Ok((start, end))
  }

  /** Adding a duration and taking the difference are inverse wherever both succeed, and both fail together. */
  lemma AddThenDifference(point: TimePoint, duration: int64, end: TimePoint)
    requires point.clock != ""
    ensures CheckedAdd(point, duration) == Ok(end) <==> CheckedDifference(end, point) == Ok(duration)
  {
    if CheckedDifference(end, point) == Ok(duration) {
      assert end == point.(value := point.value + duration);
    }
  }
}
