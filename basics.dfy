/** Shared value types: bytes, optional values, results of operations that
    the source can abort with an exception, and subtitle paragraphs. */
module Basics {

  /** An unsigned 8-bit value, as held in the source's `byte[]` buffers. */
  type byte = x: int | 0 <= x < 256

  datatype Option<+T> = None | Some(value: T)

  /** What an exception thrown by the source stands for. */
  datatype Error =
    | ArgumentOutOfRange   // `List<T>[i]`, `string.Remove` with a bad index
    | ForeignFailure       // an exception thrown by code outside this model

  datatype Result<+T> = Ok(value: T) | Failure(error: Error)

  /** A subtitle paragraph as the form's list holds it: integer milliseconds. */
  datatype Paragraph = Paragraph(startMs: int, endMs: int)
  {
    function Duration(): int { endMs - startMs }
  }

  /** `Subtitle.GetParagraphOrDefault`: the paragraph at `i`, or nothing when
      `i` is outside the list. */
  function ParagraphOrDefault(ps: seq<Paragraph>, i: int): (r: Option<Paragraph>)
    ensures r.Some? <==> 0 <= i < |ps|
    ensures r.Some? ==> r.value == ps[i]
  {
    if 0 <= i < |ps| then Some(ps[i]) else None
  }

  /** The configuration values the core reads from `Configuration.Settings.General`. */
  datatype Settings = Settings(
    subtitleMaximumDisplayMilliseconds: int,
    minimumMillisecondsBetweenLines: int,
    newEmptyDefaultMs: int)

  /** `string.IndexOfAny(cs, from)`: the first index at or after `from` that
      holds one of `cs`, or -1. */
  function IndexOfAny(s: string, cs: set<char>, from: nat): (i: int)
    ensures i == -1 || from <= i < |s|
    ensures i >= 0 ==> s[i] in cs
    ensures forall j :: from <= j < |s| && (i < 0 || j < i) ==> s[j] !in cs
    decreases |s| - from
  {
    if from >= |s| then -1
    else if s[from] in cs then from
    else IndexOfAny(s, cs, from + 1)
  }

  /** `string.LastIndexOfAny(cs)`: the last index that holds one of `cs`, or -1. */
  function LastIndexOfAny(s: string, cs: set<char>): (i: int)
    ensures -1 <= i < |s|
    ensures i >= 0 ==> s[i] in cs
    ensures forall j :: i < j < |s| ==> s[j] !in cs
  {
    if |s| == 0 then -1
    else if s[|s| - 1] in cs then |s| - 1
    else LastIndexOfAny(s[..|s| - 1], cs)
  }
}
