/**
 * The text helpers applied to an icon file before it is parsed, and the
 * consistency check over a whole set of icons.
 */
module IconProcessor {
  import opened Strings
  import opened StringSort
  import opened IconTheme
  import opened Icons

  // ---------------------------------------------------------------------------
  // Colour replacement

  const White := "@android:color/white"
  const Black := "@android:color/black"

  /** `processXmlFile`: every white colour reference becomes black. */
  function ProcessXmlFile(fileContent: string): (r: string)
    ensures |r| == |fileContent|
    ensures !Contains(r, White)
  {
    WhiteBlackReplaceable();
    ReplaceAllLength(fileContent, White, Black);
    ReplaceAllRemoves(fileContent, White, Black);
    ReplaceAll(fileContent, White, Black)
  }

  /** The two colour references can be swapped without creating or overlapping new occurrences. */
  lemma WhiteBlackReplaceable()
    ensures Replaceable(White, Black)
  {
    assert |White| == 20 && |Black| == 20;
    assert White[15] != Black[15];
    forall k | 1 <= k < 20 ensures White[k] != '@' && Black[k] != '@' {
    }
  }

  /**
   * The processed text has the input's length, holds no white reference, reads
   * black wherever the input read white, and keeps every character no white
   * reference covers.
   */
  lemma ProcessXmlFileSpec(s: string)
    ensures |ProcessXmlFile(s)| == |s|
    ensures forall i :: !OccursAt(ProcessXmlFile(s), White, i)
    ensures forall i :: OccursAt(s, White, i) ==> OccursAt(ProcessXmlFile(s), Black, i)
    ensures forall i :: 0 <= i < |s| && (forall j :: j <= i < j + |White| ==> !OccursAt(s, White, j)) ==>
      ProcessXmlFile(s)[i] == s[i]
  {
    WhiteBlackReplaceable();
    ReplaceAllLength(s, White, Black);
    ReplaceAllRemoves(s, White, Black);
    forall i | OccursAt(s, White, i) ensures OccursAt(ProcessXmlFile(s), Black, i) {
      ReplacedAt(s, White, Black, i);
    }
    forall i | 0 <= i < |s| && (forall j :: j <= i < j + |White| ==> !OccursAt(s, White, j))
      ensures ProcessXmlFile(s)[i] == s[i]
    {
      KeptAt(s, White, Black, i);
    }
  }

  /** Text without a white reference comes back unchanged. */
  lemma ProcessXmlFileNoop(s: string)
    requires !Contains(s, White)
    ensures ProcessXmlFile(s) == s
  {
    ReplaceAllNoop(s, White, Black);
  }

  /** Processing twice is processing once. */
  lemma ProcessXmlFileIdempotent(s: string)
    ensures ProcessXmlFile(ProcessXmlFile(s)) == ProcessXmlFile(s)
  {
    WhiteBlackReplaceable();
    ReplaceAllRemoves(s, White, Black);
    ReplaceAllNoop(ProcessXmlFile(s), White, Black);
  }

  // ---------------------------------------------------------------------------
  // Auto-mirroring and property names

  const AutoMirroredTrue := "android:autoMirrored=\"true\""

  /** `isAutoMirrored`: the text contains the literal attribute `android:autoMirrored="true"`. */
  function IsAutoMirrored(fileContent: string): (r: bool)
    ensures r <==> exists i :: OccursAt(fileContent, AutoMirroredTrue, i)
  {
    Contains(fileContent, AutoMirroredTrue)
  }

  /** `toKotlinPropertyName`: the file name up to its first dot. */
  function ToKotlinPropertyName(fileName: string): (r: string)
    ensures |r| <= |fileName| && r == fileName[..|r|]
    ensures '.' !in r
    ensures r == fileName <==> '.' !in fileName
    ensures r != fileName ==> fileName[|r|] == '.'
  {
    assert forall j :: 0 <= j < |fileName| ==> (OccursAt(fileName, ".", j) <==> fileName[j] == '.');
    SubstringBefore(fileName, ".")
  }

  // ---------------------------------------------------------------------------
  // Every theme holds the same icons

  datatype Check = Passed | Failed(message: string)

  const MissingThemes := "Some themes were missing from the generated icons"
  const NotInAllThemes := "Not all icons were found in all themes "

  /** Some icon of theme `t` comes before every icon of theme `u`. */
  predicate FirstAppearsBefore(icons: seq<Icon>, t: IconTheme, u: IconTheme) {
    exists i :: 0 <= i < |icons| && icons[i].theme == t && forall j :: 0 <= j <= i ==> icons[j].theme != u
  }

  /** The themes of `icons` in order of first appearance, as `groupBy` orders its keys. */
  function Keys(icons: seq<Icon>): (r: seq<IconTheme>)
    ensures forall i, j :: 0 <= i < j < |r| ==> r[i] != r[j]
    ensures forall t :: t in r <==> exists i :: 0 <= i < |icons| && icons[i].theme == t
    ensures forall i, j :: 0 <= i < j < |r| ==> FirstAppearsBefore(icons, r[i], r[j])
    ensures icons != [] ==> r != [] && r[0] == icons[0].theme
    decreases |icons|
  {
    if icons == [] then []
    else
      var front := icons[..|icons| - 1];
      var ks := Keys(front);
      var t := icons[|icons| - 1].theme;
      assert icons == front + [icons[|icons| - 1]];
      KeysOrderStep(front, icons[|icons| - 1], ks);
      if t in ks then ks else ks + [t]
  }

  /** Appending an icon keeps the first-appearance order, and a new theme comes after all earlier ones. */
  lemma KeysOrderStep(front: seq<Icon>, last: Icon, ks: seq<IconTheme>)
    requires forall t :: t in ks <==> exists i :: 0 <= i < |front| && front[i].theme == t
    requires forall i, j :: 0 <= i < j < |ks| ==> FirstAppearsBefore(front, ks[i], ks[j])
    ensures forall i, j :: 0 <= i < j < |ks| ==> FirstAppearsBefore(front + [last], ks[i], ks[j])
    ensures last.theme !in ks ==>
      forall i :: 0 <= i < |ks| ==> FirstAppearsBefore(front + [last], ks[i], last.theme)
  {
    var icons := front + [last];
    forall i, j | 0 <= i < j < |ks| ensures FirstAppearsBefore(icons, ks[i], ks[j]) {
      assert FirstAppearsBefore(front, ks[i], ks[j]);
      var k :| 0 <= k < |front| && front[k].theme == ks[i] && forall m :: 0 <= m <= k ==> front[m].theme != ks[j];
      assert icons[k] == front[k];
      assert forall m :: 0 <= m <= k ==> icons[m] == front[m];
    }
    if last.theme !in ks {
      forall i | 0 <= i < |ks| ensures FirstAppearsBefore(icons, ks[i], last.theme) {
        assert ks[i] in ks;
        var k :| 0 <= k < |front| && front[k].theme == ks[i];
        assert icons[k] == front[k];
        forall m | 0 <= m <= k ensures icons[m].theme != last.theme {
          assert icons[m] == front[m];
        }
      }
    }
  }

  /** The names of the icons of theme `t`, in list order. */
  function NamesOf(icons: seq<Icon>, t: IconTheme): (r: seq<string>)
    ensures |r| <= |icons|
    ensures r == [] <==> forall i :: 0 <= i < |icons| ==> icons[i].theme != t
    decreases |icons|
  {
    if icons == [] then []
    else
      var rest := NamesOf(icons[1..], t);
      assert forall i :: 1 <= i < |icons| ==> icons[1..][i - 1] == icons[i];
      if icons[0].theme == t then [icons[0].kotlinName] + rest else rest
  }

  /** One icon contributes its name exactly when it has the theme. */
  lemma NamesOfSingle(x: Icon, t: IconTheme)
    ensures NamesOf([x], t) == if x.theme == t then [x.kotlinName] else []
  {
    assert [x][1..] == [];
  }

  /**
   * The name list distributes over concatenation. With `NamesOfSingle` this
   * fixes the list: the names of the icons of theme `t`, in icon order.
   */
  lemma {:induction false} NamesOfAppend(a: seq<Icon>, b: seq<Icon>, t: IconTheme)
    ensures NamesOf(a + b, t) == NamesOf(a, t) + NamesOf(b, t)
    decreases |a|
  {
    if a == [] {
      assert a + b == b;
    } else {
      var ab := a + b;
      assert ab[0] == a[0] && ab[1..] == a[1..] + b;
      NamesOfAppend(a[1..], b, t);
    }
  }

  /** A name is listed for `t` exactly when some icon of theme `t` carries it. */
  lemma {:induction false} NamesOfMembers(icons: seq<Icon>, t: IconTheme, n: string)
    ensures n in NamesOf(icons, t) <==> exists i :: 0 <= i < |icons| && icons[i].theme == t && icons[i].kotlinName == n
    decreases |icons|
  {
    if icons != [] {
      NamesOfMembers(icons[1..], t, n);
      if exists i :: 0 <= i < |icons| && icons[i].theme == t && icons[i].kotlinName == n {
        var i :| 0 <= i < |icons| && icons[i].theme == t && icons[i].kotlinName == n;
        if i > 0 {
          assert icons[1..][i - 1] == icons[i];
        }
      }
      if n in NamesOf(icons[1..], t) {
        var i :| 0 <= i < |icons[1..]| && icons[1..][i].theme == t && icons[1..][i].kotlinName == n;
        assert icons[i + 1] == icons[1..][i];
      }
    }
  }

  function SortedNames(icons: seq<Icon>, t: IconTheme): seq<string> {
    Sort(NamesOf(icons, t))
  }

  /** Kotlin's `List.toString`. */
  function ListString(xs: seq<string>): (r: string)
    ensures |r| >= 2 && r[0] == '[' && r[|r| - 1] == ']'
  {
    "[" + Join(xs, ", ") + "]"
  }

  /** The message of a failed comparison: the differing list, then the expected one. */
  function MismatchMessage(actual: seq<string>, expected: seq<string>): (r: string)
    ensures |NotInAllThemes| < |r| && r[..|NotInAllThemes|] == NotInAllThemes
    ensures var e := ListString(expected); |e| < |r| && r[|r| - |e| - 1..] == " " + e
  {
    NotInAllThemes + ListString(actual) + " " + ListString(expected)
  }

  /** The missing-themes message ends in a letter. */
  lemma MissingThemesLast()
    ensures |MissingThemes| > 0 && MissingThemes[|MissingThemes| - 1] == 's'
  {
  }

  /** A mismatch is never reported as missing themes: it ends with `]`, the other with `s`. */
  lemma MismatchIsNotMissing(actual: seq<string>, expected: seq<string>)
    ensures MismatchMessage(actual, expected) != MissingThemes
  {
    MissingThemesLast();
    var m := MismatchMessage(actual, expected);
    var e := ListString(expected);
    assert m[|m| - 1] == (" " + e)[|e|];
  }

  /** `expectedIconNames`: the sorted names of each theme, in key order. */
  function NameLists(icons: seq<Icon>, keys: seq<IconTheme>): (r: seq<seq<string>>)
    ensures |r| == |keys| && forall i :: 0 <= i < |keys| ==> r[i] == SortedNames(icons, keys[i])
  {
    seq(|keys|, i requires 0 <= i < |keys| => SortedNames(icons, keys[i]))
  }

  /**
   * The `forEach` over the name lists: the first list that differs from
   * `expected` fails with both lists in the message.
   */
  function CompareAll(lists: seq<seq<string>>, expected: seq<string>): (r: Check)
    ensures r == Passed <==> forall i :: 0 <= i < |lists| ==> lists[i] == expected
    ensures r != Passed ==>
      exists i :: 0 <= i < |lists| && lists[i] != expected &&
        (forall j :: 0 <= j < i ==> lists[j] == expected) &&
        r == Failed(MismatchMessage(lists[i], expected))
    decreases |lists|
  {
    if lists == [] then Passed
    else if lists[0] != expected then
      Failed(MismatchMessage(lists[0], expected))
    else
      var r := CompareAll(lists[1..], expected);
      assert forall i :: 1 <= i < |lists| ==> lists[1..][i - 1] == lists[i];
      r
  }

  /** `ensureIconsExistInAllThemes`: every theme is present, and every theme holds the same names as the first. */
  function EnsureIconsExistInAllThemes(icons: seq<Icon>): (r: Check)
    ensures (exists t :: !HasTheme(icons, t)) ==> r == Failed(MissingThemes)
    ensures r == Passed ==> forall t :: HasTheme(icons, t)
  {
    var keys := Keys(icons);
    assert forall t :: t in keys <==> HasTheme(icons, t);
    if exists t :: t !in keys then Failed(MissingThemes)
    else
      assert Filled in keys;
      var lists := NameLists(icons, keys);
      CompareAll(lists, lists[0])
  }

  predicate HasTheme(icons: seq<Icon>, t: IconTheme) {
    exists i :: 0 <= i < |icons| && icons[i].theme == t
  }

  /** The check fails with the missing-themes message exactly when some theme has no icon. */
  lemma MissingThemeIff(icons: seq<Icon>)
    ensures EnsureIconsExistInAllThemes(icons) == Failed(MissingThemes) <==> exists t :: !HasTheme(icons, t)
  {
    var keys := Keys(icons);
    assert forall t :: t in keys <==> HasTheme(icons, t);
    if forall t :: t in keys {
      assert Filled in keys;
      var lists := NameLists(icons, keys);
      var r := CompareAll(lists, lists[0]);
      if r != Passed {
        var i :| 0 <= i < |lists| && r == Failed(MismatchMessage(lists[i], lists[0]));
        MismatchIsNotMissing(lists[i], lists[0]);
      }
    }
  }

  /** In particular an empty icon list fails. */
  lemma EmptyFails()
    ensures EnsureIconsExistInAllThemes([]) == Failed(MissingThemes)
  {
    assert !HasTheme([], Filled);
    MissingThemeIff([]);
  }

  predicate AllThemesPresent(icons: seq<Icon>) {
    forall t :: HasTheme(icons, t)
  }

  predicate SameSortedNames(icons: seq<Icon>) {
    forall t, u :: SortedNames(icons, t) == SortedNames(icons, u)
  }

  predicate SameNameMultisets(icons: seq<Icon>) {
    forall t, u :: multiset(NamesOf(icons, t)) == multiset(NamesOf(icons, u))
  }

  /** The check passes exactly when every theme is present and all themes' sorted name lists agree. */
  lemma PassedIff(icons: seq<Icon>)
    ensures EnsureIconsExistInAllThemes(icons) == Passed <==> AllThemesPresent(icons) && SameSortedNames(icons)
  {
    var keys := Keys(icons);
    assert forall t :: t in keys <==> HasTheme(icons, t);
    if forall t :: t in keys {
      PassedWhenAllPresent(icons);
    }
  }

  lemma PassedWhenAllPresent(icons: seq<Icon>)
    requires forall t :: t in Keys(icons)
    ensures EnsureIconsExistInAllThemes(icons) == Passed <==> SameSortedNames(icons)
  {
    var keys := Keys(icons);
    assert Filled in keys;
    var lists := NameLists(icons, keys);
    assert EnsureIconsExistInAllThemes(icons) == CompareAll(lists, lists[0]);
    if CompareAll(lists, lists[0]) == Passed {
      forall t, u ensures SortedNames(icons, t) == SortedNames(icons, u) {
        assert t in keys && u in keys;
        var i :| 0 <= i < |keys| && keys[i] == t;
        var j :| 0 <= j < |keys| && keys[j] == u;
        assert lists[i] == lists[0] == lists[j];
      }
    } else {
      var i :| 0 <= i < |lists| && lists[i] != lists[0];
      assert SortedNames(icons, keys[i]) != SortedNames(icons, keys[0]);
    }
  }

  /** Sorted name lists agree exactly when the themes hold the same names, counted with multiplicity. */
  lemma SortedNamesIffMultisets(icons: seq<Icon>)
    ensures SameSortedNames(icons) <==> SameNameMultisets(icons)
  {
    forall t, u ensures SortedNames(icons, t) == SortedNames(icons, u) <==>
      multiset(NamesOf(icons, t)) == multiset(NamesOf(icons, u))
    {
      SortEqualIff(NamesOf(icons, t), NamesOf(icons, u));
    }
  }

  /** Equivalently: the check passes exactly when every theme is present and all themes hold the same names. */
  lemma PassedIffSameNames(icons: seq<Icon>)
    ensures EnsureIconsExistInAllThemes(icons) == Passed <==> AllThemesPresent(icons) && SameNameMultisets(icons)
  {
    PassedIff(icons);
    SortedNamesIffMultisets(icons);
  }
}
