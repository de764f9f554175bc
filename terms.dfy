/** The term objects the extractor produces and the deduplicator merges. A
    field that is None is absent from the object (never set, or deleted). */
module Terms {
  import opened JsValue

  datatype Position = Position(start: int, end: int)

  /** One entry of a merged term's `locations`. */
  datatype Location = Location(file: Option<string>, position: Option<Position>)

  datatype Term = Term(
    text: string,
    file: Option<string>,
    position: Option<Position>,
    argumentIndex: Option<int>,
    extractedAt: Option<string>,
    locations: Option<seq<Location>>)

  /** The object `extractChineseFromArgs` pushes for one argument: the
      position is always {start: 0, end: 0}, and no `locations` yet. */
  function Occurrence(text: string, file: string, index: nat, now: string): Term {
    Term(text, Some(file), Some(Position(0, 0)), Some(index), Some(now), None)
  }
}
