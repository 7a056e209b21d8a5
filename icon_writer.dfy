/**
 * The composition the icon writer performs: parse the icon's XML, then render
 * the parsed vector as Kotlin source. Wrapping the text in a browser file
 * object is not modelled.
 */
module IconWriter {
  import opened Wrappers
  import opened Vector
  import opened Icons
  import opened IconParser
  import opened ImageVectorGenerator

  /**
   * `IconWriter.generate`: the events the XML library reports for the icon's
   * text (`xmlEvents`) are walked into a vector, which is rendered under the
   * icon's name and theme. A parse error aborts with no output.
   */
  method Generate(icon: Icon, xmlEvents: string -> seq<Event>, pf: Platform)
    returns (r: Result<string, ParseError>)
    ensures var parsed := ParseSpec(xmlEvents(icon.fileContent), pf);
      (r.Err? <==> parsed.Err?) &&
      (r.Err? ==> r.error == parsed.error) &&
      (r.Ok? ==> r.value == FileSpec(icon.kotlinName, icon.theme, parsed.value, pf))
    ensures r.Ok? ==>
      var head := PackageLine(icon.theme);
      var tail := BackingDeclaration(BackingProperty(icon.kotlinName, pf));
      |head| + |tail| <= |r.value| &&
      r.value[..|head|] == head && r.value[|r.value| - |tail|..] == tail
  {
    var parsed := Parse(xmlEvents(icon.fileContent), pf);
    if parsed.Err? {
      return Err(parsed.error);
    }
    var text := CreateFileSpec(icon.kotlinName, icon.theme, parsed.value, pf);
    return Ok(text);
  }
}
