/** The per-property column descriptor (the `CsvColumn` attribute). */
module Mapping {
  import opened Wrappers

  /** A header name to read, a 0-based key to read, the name of a converter
      callable ("function" or "Class::method") and whether a value must be present. */
  datatype CsvColumn = CsvColumn(
    name: Option<string>,
    index: Option<int>,
    converter: Option<string>,
    required: bool)

  /** `#[CsvColumn]` with every argument left at its default. */
  const Bare := CsvColumn(None, None, None, false)
}
