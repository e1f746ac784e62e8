/** The `--format` argument of the palette tool (src/parsers/mod.rs). */
module OutputFormats {
  /** The two palette writers. */
  datatype OutputFormat = Svg | Json

  /** `Result<OutputFormat, &'static str>`. */
  datatype ParseResult = Ok(format: OutputFormat) | Err(message: string)

  /** The fixed error text, trailing space included. */
  const ParseErrorMessage: string := "Failed to parse Output Format "

  /** The one spelling each format is accepted under. */
  function Name(f: OutputFormat): string
  {
    match f
    case Svg => "svg"
    case Json => "json"
  }

  /**
   * `OutputFormat::from_str`: an exact, case-sensitive match. An accepted
   * string is exactly the name of the format it yields; every rejection
   * carries the fixed message.
   */
  function FromStr(s: string): (r: ParseResult)
    ensures r.Ok? ==> Name(r.format) == s
    ensures r.Err? ==> r.message == ParseErrorMessage
  {
    if s == "svg" then Ok(Svg)
    else if s == "json" then Ok(Json)
    else Err(ParseErrorMessage)
  }

  /** A string parses to a format exactly when it is that format's name. */
  lemma FromStrAccepts(s: string, f: OutputFormat)
    ensures FromStr(s) == Ok(f) <==> s == Name(f)
  {
    if s == Name(f) {
      match f
      case Svg =>
      case Json =>
    }
  }

  /** Anything that is neither name is rejected. */
  lemma FromStrRejects(s: string)
    ensures FromStr(s).Err? <==> s != "svg" && s != "json"
  {
  }

  /** Other case, surrounding white space and the empty string are not names. */
  lemma FromStrRejectsNearMisses()
    ensures FromStr("SVG") == Err(ParseErrorMessage)
    ensures FromStr("Json") == Err(ParseErrorMessage)
    ensures FromStr(" svg") == Err(ParseErrorMessage)
    ensures FromStr("json\n") == Err(ParseErrorMessage)
    ensures FromStr("") == Err(ParseErrorMessage)
  {
    assert "SVG" != "svg" by { assert "SVG"[0] != "svg"[0]; }
    assert "Json" != "json" by { assert "Json"[0] != "json"[0]; }
    assert " svg" != "svg" && " svg" != "json";
    assert "json\n" != "json";
  }
}
