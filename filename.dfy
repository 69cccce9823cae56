/**
 * The filename deriver: the readable name assembled from an item's texts
 * and `sanitize_filename`.
 */
module Filename {
  import opened Text

  /** The characters `sanitize_filename` deletes, in the order it deletes them. */
  const InvalidChars: seq<char> := ['<', '>', ':', '"', '/', '\\', '|', '?', '*']

  /** The same characters as a set. */
  const InvalidSet: set<char> := {'<', '>', ':', '"', '/', '\\', '|', '?', '*'}

  /** The characters of `cs`, as a set. */
  function CharSet(cs: seq<char>): set<char>
  {
    if cs == [] then {} else CharSet(cs[..|cs| - 1]) + {cs[|cs| - 1]}
  }

  lemma {:induction false} CharSetMembers(cs: seq<char>)
    ensures forall c :: c in CharSet(cs) <==> c in cs
  {
    if cs != [] {
      CharSetMembers(cs[..|cs| - 1]);
      assert cs == cs[..|cs| - 1] + [cs[|cs| - 1]];
    }
  }

  lemma InvalidCharsAsSet()
    ensures CharSet(InvalidChars) == InvalidSet
  {
    CharSetMembers(InvalidChars);
  }

  /** What `sanitize_filename` computes: every invalid character deleted, then
      the outer whitespace stripped. */
  function Sanitized(filename: string): (r: string)
    ensures forall i :: 0 <= i < |r| ==> r[i] !in InvalidSet
    ensures Trimmed(r)
    ensures |r| <= |filename|
  {
    Strip(RemoveChars(filename, InvalidSet))
  }

  /** Sanitising a sanitised name changes nothing. */
  lemma SanitizedIdempotent(filename: string)
    ensures Sanitized(Sanitized(filename)) == Sanitized(filename)
  {
    var s := Sanitized(filename);
    RemoveCharsAbsent(s, InvalidSet);
    StripTrimmed(s);
  }

  /** A name with no invalid characters and no outer whitespace is left as it is. */
  lemma CleanUnchanged(s: string)
    requires NoInvalid(s) && Trimmed(s)
    ensures Sanitized(s) == s
  {
    RemoveCharsAbsent(s, InvalidSet);
    StripTrimmed(s);
  }

  /** `sanitize_filename`: one `str.replace(char, '')` per invalid character,
      then `str.strip()`. */
  method SanitizeFilename(filename: string) returns (r: string)
    ensures r == Sanitized(filename)
  {
    var f := filename;
    RemoveCharsAbsent(filename, {});
    assert InvalidChars[..0] == [];
    for k := 0 to |InvalidChars|
      invariant f == RemoveChars(filename, CharSet(InvalidChars[..k]))
    {
      RemoveCharsTwice(filename, CharSet(InvalidChars[..k]), {InvalidChars[k]});
      assert InvalidChars[..k + 1][..k] == InvalidChars[..k];
      f := RemoveChars(f, {InvalidChars[k]});
    }
    assert InvalidChars[..|InvalidChars|] == InvalidChars;
    InvalidCharsAsSet();
    r := Strip(f);
  }

  /** The filename parts: `[character]`, the series, `- main_name` and
      `(small_text)`, each only when its text is non-empty, in that order. */
  function FilenameParts(character: string, series: string, mainName: string, smallText: string): (parts: seq<string>)
    ensures |parts| <= 4
    ensures forall i :: 0 <= i < |parts| ==> parts[i] != []
  {
    (if character != [] then ["[" + character + "]"] else [])
    + (if series != [] then [series] else [])
    + (if mainName != [] then ["- " + mainName] else [])
    + (if smallText != [] then ["(" + smallText + ")"] else [])
  }

  const Extension: string := ".jpg"

  /** The characters `.`, `j`, `p` and `g` of the extension are all allowed,
      and neither end of it is whitespace. */
  lemma ExtensionClean()
    ensures NoInvalid(Extension)
    ensures |Extension| == 4 && !IsSpace(Extension[0]) && !IsSpace(Extension[3])
  {
  }

  /** The name before sanitising: the parts joined by single spaces, then `.jpg`. */
  function RawFilename(character: string, series: string, mainName: string, smallText: string): (r: string)
    ensures EndsWith(r, Extension)
  {
    Join(" ", NonEmpty(FilenameParts(character, series, mainName, smallText))) + Extension
  }

  /** The name an item is downloaded under. */
  function DerivedFilename(character: string, series: string, mainName: string, smallText: string): (r: string)
    ensures NoInvalid(r) && Trimmed(r)
    ensures |r| <= |RawFilename(character, series, mainName, smallText)|
  {
    Sanitized(RawFilename(character, series, mainName, smallText))
  }

  /** A name a file can be saved under: it ends in ".jpg", holds none of the
      characters Windows forbids, and has no outer whitespace. */
  predicate SafeName(n: string) {
    |n| >= |Extension| && n[|n| - |Extension|..] == Extension && NoInvalid(n) && Trimmed(n)
  }

  /** Sanitising a name that ends in `.jpg` keeps the `.jpg` at its end. */
  lemma SanitizedKeepsExtension(joined: string)
    ensures var r := Sanitized(joined + Extension);
            |r| >= |Extension| && r[|r| - |Extension|..] == Extension
  {
    ExtensionClean();
    RemoveCharsAppend(joined, Extension, InvalidSet);
    RemoveCharsAbsent(Extension, InvalidSet);
    StripKeepsTail(RemoveChars(joined, InvalidSet), Extension);
  }

  /** The derived name ends in `.jpg`, contains none of the invalid characters,
      has no outer whitespace and is left alone by a second sanitising. */
  lemma DerivedFilenameShape(character: string, series: string, mainName: string, smallText: string)
    ensures var r := DerivedFilename(character, series, mainName, smallText);
            SafeName(r) && Sanitized(r) == r
  {
    var joined := Join(" ", NonEmpty(FilenameParts(character, series, mainName, smallText)));
    SanitizedKeepsExtension(joined);
    SanitizedIdempotent(joined + Extension);
  }

  /** An item with no texts at all is saved as `.jpg`. */
  lemma EmptyItemFilename(character: string, series: string, mainName: string, smallText: string)
    requires character == series == mainName == smallText == []
    ensures DerivedFilename(character, series, mainName, smallText) == Extension
  {
    var parts := FilenameParts(character, series, mainName, smallText);
    assert parts == [];
    assert NonEmpty(parts) == [];
    assert Join(" ", NonEmpty(parts)) + Extension == Extension;
    ExtensionClean();
    CleanUnchanged(Extension);
  }

  predicate NoInvalid(s: string) {
    forall i :: 0 <= i < |s| ==> s[i] !in InvalidSet
  }

  lemma NoInvalidAppend(a: string, b: string)
    requires NoInvalid(a) && NoInvalid(b)
    ensures NoInvalid(a + b)
  {
    forall i | 0 <= i < |a + b| ensures (a + b)[i] !in InvalidSet {
      if i >= |a| {
        assert (a + b)[i] == b[i - |a|];
      }
    }
  }

  lemma {:induction false} JoinNoInvalid(parts: seq<string>)
    requires forall i :: 0 <= i < |parts| ==> NoInvalid(parts[i])
    ensures NoInvalid(Join(" ", parts))
    ensures |parts| > 0 && parts[0] != [] ==> Join(" ", parts) != [] && Join(" ", parts)[0] == parts[0][0]
  {
    if |parts| > 1 {
      JoinNoInvalid(parts[1..]);
      NoInvalidAppend(parts[0], " ");
      NoInvalidAppend(parts[0] + " ", Join(" ", parts[1..]));
    }
  }

  /** Clean texts give clean parts, and the first part never starts with
      whitespace. */
  lemma PartsClean(character: string, series: string, mainName: string, smallText: string)
    requires Trimmed(series)
    requires NoInvalid(character) && NoInvalid(series) && NoInvalid(mainName) && NoInvalid(smallText)
    ensures var parts := FilenameParts(character, series, mainName, smallText);
            (forall i :: 0 <= i < |parts| ==> NoInvalid(parts[i]))
            && (parts != [] ==> !IsSpace(parts[0][0]))
  {
    NoInvalidAppend("[", character);
    NoInvalidAppend("[" + character, "]");
    NoInvalidAppend("- ", mainName);
    NoInvalidAppend("(", smallText);
    NoInvalidAppend("(" + smallText, ")");
    var a := if character != [] then ["[" + character + "]"] else [];
    var b := if series != [] then [series] else [];
    var c := if mainName != [] then ["- " + mainName] else [];
    var d := if smallText != [] then ["(" + smallText + ")"] else [];
    var parts := FilenameParts(character, series, mainName, smallText);
    assert parts == a + b + c + d;
    if parts != [] {
      if a != [] {
        assert parts[0][0] == '[';
      } else if b != [] {
        assert parts[0] == series;
      } else if c != [] {
        assert parts[0][0] == '-';
      } else {
        assert parts[0][0] == '(';
      }
    }
  }

  /** When the texts have no outer whitespace and no invalid characters (the
      extracted texts are already stripped), sanitising changes nothing: the
      name is exactly the non-empty parts joined by single spaces, plus `.jpg`. */
  lemma CleanTextsKeepFilename(character: string, series: string, mainName: string, smallText: string)
    requires Trimmed(series)
    requires NoInvalid(character) && NoInvalid(series) && NoInvalid(mainName) && NoInvalid(smallText)
    ensures DerivedFilename(character, series, mainName, smallText)
            == Join(" ", FilenameParts(character, series, mainName, smallText)) + Extension
  {
    var parts := FilenameParts(character, series, mainName, smallText);
    NonEmptyKeepsAll(parts);
    PartsClean(character, series, mainName, smallText);
    JoinNoInvalid(parts);
    var joined := Join(" ", parts);
    ExtensionClean();
    NoInvalidAppend(joined, Extension);
    var raw := joined + Extension;
    assert raw[|raw| - 1] == Extension[3];
    assert raw[0] == if parts != [] then parts[0][0] else Extension[0];
    CleanUnchanged(raw);
  }

  /** `filter(None, ...)` never removes a part: every part is non-empty. */
  lemma FilterKeepsParts(character: string, series: string, mainName: string, smallText: string)
    ensures NonEmpty(FilenameParts(character, series, mainName, smallText))
            == FilenameParts(character, series, mainName, smallText)
  {
    NonEmptyKeepsAll(FilenameParts(character, series, mainName, smallText));
  }

  /** `filename_parts` built with the four appends, joined, given `.jpg`, then
      sanitised. */
  method DeriveFilename(character: string, series: string, mainName: string, smallText: string)
    returns (filename: string)
    ensures filename == DerivedFilename(character, series, mainName, smallText)
  {
    var parts: seq<string> := [];
    if character != [] {
      parts := parts + ["[" + character + "]"];
    }
    if series != [] {
      parts := parts + [series];
    }
    if mainName != [] {
      parts := parts + ["- " + mainName];
    }
    if smallText != [] {
      parts := parts + ["(" + smallText + ")"];
    }
    assert parts == FilenameParts(character, series, mainName, smallText);
    filename := Join(" ", NonEmpty(parts)) + Extension;
    filename := SanitizeFilename(filename);
  }
}
