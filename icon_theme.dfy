/** The themes of the Material icon sets and the names derived from them. */
module IconTheme {
  import opened Wrappers
  import opened Strings

  /** One constant per theme, in declaration order. */
  datatype IconTheme = Filled | Outlined | Rounded | TwoTone | Sharp

  /** `IconTheme.values()`. */
  const AllThemes: seq<IconTheme> := [Filled, Outlined, Rounded, TwoTone, Sharp]

  /** The constant's own name (`IconTheme.name`). */
  function Name(t: IconTheme): string {
    match t
    case Filled => "Filled"
    case Outlined => "Outlined"
    case Rounded => "Rounded"
    case TwoTone => "TwoTone"
    case Sharp => "Sharp"
  }

  /** `themePackageName`: the lower-case name used for packages and in XML files. */
  function PackageName(t: IconTheme): string {
    match t
    case Filled => "filled"
    case Outlined => "outlined"
    case Rounded => "rounded"
    case TwoTone => "twotone"
    case Sharp => "sharp"
  }

  /** `themeClassName`: the camel-case name used for the theme objects. */
  function ClassName(t: IconTheme): string {
    match t
    case Filled => "Filled"
    case Outlined => "Outlined"
    case Rounded => "Rounded"
    case TwoTone => "TwoTone"
    case Sharp => "Sharp"
  }

  const NoMatchingTheme := "No matching theme found"

  /** `values().find { it.themePackageName == s }`: the first theme in `ts` with package name `s`. */
  function FindByPackageName(ts: seq<IconTheme>, s: string): (r: Option<IconTheme>)
    ensures r.Some? ==> r.value in ts && PackageName(r.value) == s
    ensures r.None? ==> forall t :: t in ts ==> PackageName(t) != s
    decreases |ts|
  {
    if ts == [] then None
    else if PackageName(ts[0]) == s then Some(ts[0])
    else FindByPackageName(ts[1..], s)
  }

  /** `String.toIconTheme()`: the theme whose package name is `s`, or the error `requireNotNull` raises. */
  function ToIconTheme(s: string): (r: Result<IconTheme, string>)
    ensures r.Ok? ==> PackageName(r.value) == s
    ensures r.Err? ==> r.error == NoMatchingTheme && forall t :: PackageName(t) != s
  {
    match FindByPackageName(AllThemes, s)
    case Some(t) => Ok(t)
    case None =>
      assert forall t :: t in AllThemes by { AllThemesComplete(); }
      Err(NoMatchingTheme)
  }

  /** There are exactly five themes and `values()` lists each once. */
  lemma AllThemesComplete()
    ensures |AllThemes| == 5
    ensures forall t :: t in AllThemes
    ensures forall i, j :: 0 <= i < j < |AllThemes| ==> AllThemes[i] != AllThemes[j]
  {
    forall t ensures t in AllThemes {
      match t
      case Filled => assert AllThemes[0] == t;
      case Outlined => assert AllThemes[1] == t;
      case Rounded => assert AllThemes[2] == t;
      case TwoTone => assert AllThemes[3] == t;
      case Sharp => assert AllThemes[4] == t;
    }
  }

  /** No two themes share a package name. */
  lemma PackageNamesDistinct(a: IconTheme, b: IconTheme)
    requires a != b
    ensures PackageName(a) != PackageName(b)
  {
    match a
    case Filled => assert PackageName(a)[0] == 'f';
    case Outlined => assert PackageName(a)[0] == 'o';
    case Rounded => assert PackageName(a)[0] == 'r';
    case TwoTone => assert PackageName(a)[0] == 't';
    case Sharp => assert PackageName(a)[0] == 's';
  }

  /** Looking up a theme's own package name gives that theme back. */
  lemma ToIconThemeRoundTrip(t: IconTheme)
    ensures ToIconTheme(PackageName(t)) == Ok(t)
  {
    var r := ToIconTheme(PackageName(t));
    if r.Ok? && r.value != t {
      PackageNamesDistinct(r.value, t);
    }
  }

  /** Lookup fails exactly for strings that are none of the five package names. */
  lemma ToIconThemeFails(s: string)
    ensures ToIconTheme(s).Err? <==> forall t :: PackageName(t) != s
  {
    if ToIconTheme(s).Ok? {
      assert PackageName(ToIconTheme(s).value) == s;
    }
  }

  /** The class name is not a package name: `"Filled".toIconTheme()` fails. */
  lemma ClassNameIsNoPackageName()
    ensures ToIconTheme(ClassName(Filled)) == Err(NoMatchingTheme)
  {
    forall t ensures PackageName(t) != "Filled" {
      assert PackageName(t)[0] != 'F';
    }
  }

  /**
   * Each package name is the lower-case form of the class name, and the class
   * name is the constant's own name (the one the generated getter quotes).
   */
  lemma NamesAgree(t: IconTheme)
    ensures PackageName(t) == Lower(ClassName(t))
    ensures ClassName(t) == Name(t)
  {
  }

  /** `IconTheme.className`: a fixed placeholder for every theme. */
  function ClassNameOf(t: IconTheme): (r: string)
    ensures r == "class_name"
  {
    "class_name"
  }

  /** `IconTheme.autoMirroredClassName`: a fixed placeholder for every theme. */
  function AutoMirroredClassNameOf(t: IconTheme): (r: string)
    ensures r == "auto_mirrored_class_name"
  {
    "auto_mirrored_class_name"
  }

  const AutoMirroredName := "AutoMirrored"

  /** `AutoMirroredName.lowercase()`. */
  function AutoMirroredPackageName(): (r: string)
    ensures r == "automirrored"
  {
    Lower(AutoMirroredName)
  }
}
