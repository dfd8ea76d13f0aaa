/**
 * The `Cache-Control` header the server sets on a static file, chosen by the
 * ending of the file's path: scripts, style sheets, images and fonts are cached
 * for a year and never revalidated, PDF documents for a month, and any other
 * file gets no header from this rule.
 */
module StaticCache {
  import opened Wrappers

  const OneYearMaxAge: string := "31536000"
  const OneMonthMaxAge: string := "2592000"

  /** Cache for a year and never revalidate: `public, max-age=31536000, immutable`. */
  const OneYearImmutable: string := "public, max-age=" + OneYearMaxAge + ", immutable"

  /** Cache for a month: `public, max-age=2592000`. */
  const OneMonth: string := "public, max-age=" + OneMonthMaxAge

  const ScriptAndStyleSuffixes: seq<string> := [".js", ".css"]
  const ImageSuffixes: seq<string> := [".jpg", ".jpeg", ".png", ".gif", ".ico", ".svg", ".webp"]
  const FontSuffixes: seq<string> := [".woff", ".woff2", ".ttf", ".eot"]
  const DocumentSuffix: string := ".pdf"

  /** The endings cached for a year, in the order the rule tries them. */
  const LongLivedSuffixes: seq<string> := ScriptAndStyleSuffixes + ImageSuffixes + FontSuffixes

  /** `s.endsWith(suffix)`: exact, case-sensitive comparison of the last characters. */
  predicate EndsWith(s: string, suffix: string) {
    |suffix| <= |s| && s[|s| - |suffix|..] == suffix
  }

  /** `s` ends with one of `suffixes`: the regular expression `\.(a|b|...)$`. */
  predicate EndsWithAny(s: string, suffixes: seq<string>) {
    exists i :: 0 <= i < |suffixes| && EndsWith(s, suffixes[i])
  }

  /** Position of the last `.` in `s`, if there is one. */
  function LastDot(s: string): (i: Option<nat>)
    ensures i.Some? ==> i.value < |s| && s[i.value] == '.'
    ensures i.Some? ==> forall k :: i.value < k < |s| ==> s[k] != '.'
    ensures i.None? ==> forall k :: 0 <= k < |s| ==> s[k] != '.'
  {
    if |s| == 0 then None
    else if s[|s| - 1] == '.' then Some(|s| - 1)
    else LastDot(s[..|s| - 1])
  }

  /** The final extension of a path, with its dot: from the last `.` to the end. */
  function Extension(path: string): (e: Option<string>)
    ensures e.Some? ==> EndsWith(path, e.value)
  {
    match LastDot(path)
    case Some(i) => Some(path[i..])
    case None => None
  }

  /** A suffix made of a dot and characters other than dots, such as `.js`. */
  predicate IsExtension(suffix: string) {
    |suffix| > 0 && suffix[0] == '.' && forall k :: 0 < k < |suffix| ==> suffix[k] != '.'
  }

  /** A path ends with an extension exactly when that is its final extension. */
  lemma EndsWithExtension(path: string, suffix: string)
    requires IsExtension(suffix)
    ensures EndsWith(path, suffix) <==> Extension(path) == Some(suffix)
  {
    if EndsWith(path, suffix) {
      var j := |path| - |suffix|;
      assert path[j] == suffix[0];
      assert LastDot(path).Some?;
    }
  }

  /** A path ends with one of some extensions exactly when its final extension is one of them. */
  lemma EndsWithAnyExtension(path: string, suffixes: seq<string>)
    requires forall i :: 0 <= i < |suffixes| ==> IsExtension(suffixes[i])
    ensures EndsWithAny(path, suffixes) <==> Extension(path).Some? && Extension(path).value in suffixes
  {
    if EndsWithAny(path, suffixes) {
      var i :| 0 <= i < |suffixes| && EndsWith(path, suffixes[i]);
      EndsWithExtension(path, suffixes[i]);
    }
    if Extension(path).Some? && Extension(path).value in suffixes {
      var i :| 0 <= i < |suffixes| && suffixes[i] == Extension(path).value;
      EndsWithExtension(path, suffixes[i]);
    }
  }

  /**
   * The `setHeaders` rule: an exclusive chain tried in order, scripts and
   * styles, then images, then fonts, then PDF documents. `None` means the
   * rule sets no header. Which header a path gets depends only on its final
   * extension, compared exactly (case-sensitively).
   */
  function CacheControl(path: string): (header: Option<string>)
    ensures header == Some(OneYearImmutable) <==> Extension(path).Some? && Extension(path).value in LongLivedSuffixes
    ensures header == Some(OneMonth) <==> Extension(path) == Some(DocumentSuffix)
    ensures header.None? <==>
      Extension(path).None? || Extension(path).value !in LongLivedSuffixes + [DocumentSuffix]
  {
    ChainByExtension(path);
    if EndsWith(path, ".js") || EndsWith(path, ".css") then
      Some(OneYearImmutable)
    else if EndsWithAny(path, ImageSuffixes) then
      Some(OneYearImmutable)
    else if EndsWithAny(path, FontSuffixes) then
      Some(OneYearImmutable)
    else if EndsWith(path, DocumentSuffix) then
      Some(OneMonth)
    else
      None
  }

  /** Each test of the chain is a test of the final extension. */
  lemma ChainByExtension(path: string)
    ensures EndsWith(path, ".js") || EndsWith(path, ".css") <==> Extension(path) in {Some(".js"), Some(".css")}
    ensures EndsWithAny(path, ImageSuffixes) <==> Extension(path).Some? && Extension(path).value in ImageSuffixes
    ensures EndsWithAny(path, FontSuffixes) <==> Extension(path).Some? && Extension(path).value in FontSuffixes
    ensures EndsWith(path, DocumentSuffix) <==> Extension(path) == Some(DocumentSuffix)
  {
    EndsWithExtension(path, ".js");
    EndsWithExtension(path, ".css");
    EndsWithExtension(path, DocumentSuffix);
    EndsWithAnyExtension(path, ImageSuffixes);
    EndsWithAnyExtension(path, FontSuffixes);
  }

  /** The groups are exclusive: no extension belongs to two of them, so their order does not matter. */
  lemma GroupsExclusive(e: string)
    ensures !(e in ScriptAndStyleSuffixes && e in ImageSuffixes)
    ensures !(e in ScriptAndStyleSuffixes && e in FontSuffixes)
    ensures !(e in ImageSuffixes && e in FontSuffixes)
    ensures !(e in LongLivedSuffixes && e == DocumentSuffix)
  {
  }

  /** The number the first `n` characters of a string of decimal digits stand for. */
  function DecimalValue(digits: string, n: nat): (v: int)
    requires n <= |digits|
    requires forall k :: 0 <= k < |digits| ==> '0' <= digits[k] <= '9'
    ensures 0 <= v
  {
    if n == 0 then 0 else DecimalValue(digits, n - 1) * 10 + (digits[n - 1] as int - '0' as int)
  }

  /** The one-year header's age is a year of 365 days, in seconds. */
  lemma MaxAgeIsAYear()
    ensures DecimalValue(OneYearMaxAge, |OneYearMaxAge|) == 365 * 24 * 60 * 60
  {
    var s := OneYearMaxAge;
    assert DecimalValue(s, 1) == 3;
    assert DecimalValue(s, 2) == 31;
    assert DecimalValue(s, 3) == 315;
    assert DecimalValue(s, 4) == 3153;
    assert DecimalValue(s, 5) == 31536;
    assert DecimalValue(s, 6) == 315360;
    assert DecimalValue(s, 7) == 3153600;
  }

  /** The one-month header's age is a month of 30 days, in seconds. */
  lemma MaxAgeIsAMonth()
    ensures DecimalValue(OneMonthMaxAge, |OneMonthMaxAge|) == 30 * 24 * 60 * 60
  {
    var s := OneMonthMaxAge;
    assert DecimalValue(s, 1) == 2;
    assert DecimalValue(s, 2) == 25;
    assert DecimalValue(s, 3) == 259;
    assert DecimalValue(s, 4) == 2592;
    assert DecimalValue(s, 5) == 25920;
    assert DecimalValue(s, 6) == 259200;
  }

  /** A dot with no dot after it starts the final extension. */
  lemma ExtensionAt(path: string, i: nat)
    requires i < |path| && path[i] == '.' && forall k :: i < k < |path| ==> path[k] != '.'
    ensures Extension(path) == Some(path[i..])
  {
    assert LastDot(path).Some?;
  }

  /** Matching is case-sensitive: an upper-case `.JS` is not a script. */
  lemma UpperCaseGetsNoHeader()
    ensures CacheControl("app.JS").None?
  {
    ExtensionAt("app.JS", 3);
    var e := "app.JS"[3..];
    assert e == ".JS";
    assert e[1] == 'J';
    assert e !in ScriptAndStyleSuffixes;
    assert e !in ImageSuffixes + FontSuffixes + [DocumentSuffix];
  }

  /** Matching looks only at the very end of the path: a PDF renamed to `.bak` gets no header. */
  lemma InnerExtensionGetsNoHeader()
    ensures CacheControl("x.pdf.bak").None?
  {
    ExtensionAt("x.pdf.bak", 5);
    var e := "x.pdf.bak"[5..];
    assert e == ".bak";
    assert e[1] == 'b';
    assert e !in ScriptAndStyleSuffixes + ImageSuffixes;
    assert e !in FontSuffixes + [DocumentSuffix];
  }

  /** Scripts get the one-year value. */
  lemma ScriptGetsAYear()
    ensures CacheControl("main.js") == Some(OneYearImmutable)
  {
    ExtensionAt("main.js", 4);
    assert "main.js"[4..] == ".js";
  }

  /** Images get the one-year value. */
  lemma ImageGetsAYear()
    ensures CacheControl("assets/logo.webp") == Some(OneYearImmutable)
  {
    ExtensionAt("assets/logo.webp", 11);
    assert "assets/logo.webp"[11..] == ".webp";
  }

  /** Fonts get the one-year value; `.woff2` is matched as itself, not as `.woff`. */
  lemma FontGetsAYear()
    ensures CacheControl("fonts/inter.woff2") == Some(OneYearImmutable)
  {
    ExtensionAt("fonts/inter.woff2", 11);
    assert "fonts/inter.woff2"[11..] == ".woff2";
  }

  /** PDF documents get the one-month value. */
  lemma DocumentGetsAMonth()
    ensures CacheControl("docs/offert.pdf") == Some(OneMonth)
  {
    ExtensionAt("docs/offert.pdf", 11);
    assert "docs/offert.pdf"[11..] == ".pdf";
  }
}
