/** The icon record handed from the file reader to the parser and the generator. */
module Icons {
  import opened IconTheme

  /**
   * `Icon`: the generated property's name, the processed file's name, the
   * theme, the XML text to parse and whether the icon mirrors in
   * right-to-left layouts.
   */
  datatype Icon = Icon(
    kotlinName: string,
    xmlFileName: string,
    theme: IconTheme,
    fileContent: string,
    autoMirrored: bool)
}
