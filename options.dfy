/** The reader's and writer's configuration record. */
module Options {
  import opened Wrappers

  /** Field separator, enclosure and escape characters (handed to the external
      tokenizer), whether the first surviving record is a header, whether blank
      records are dropped, and an encoding hint that nothing reads. */
  datatype CsvOptions = CsvOptions(
    delimiter: string,
    enclosure: string,
    escape: string,
    hasHeader: bool,
    skipEmptyLines: bool,
    encoding: Option<string>)

  /** `new CsvOptions()` */
  const Default := CsvOptions(",", "\"", "\\", true, true, None)

  /** `$options ?? new CsvOptions()` */
  function OrDefault(options: Option<CsvOptions>): (o: CsvOptions)
    ensures options.Some? ==> o == options.value
    ensures options.None? ==> o.hasHeader && o.skipEmptyLines && o.delimiter == ","
  {
    if options.Some? then options.value else Default
  }
}
