/**
 * Choosing the highlighting rule set of the editor.
 *
 * The editor keeps a language identifier (normally the extension of the opened file) and, when
 * the activity is created, maps it to one of eleven rule sets with a `when` expression whose
 * unmatched identifiers keep the Java rules. The identifier itself comes from the file's display
 * name (`split(".").last()`), from the MIME type when the name cannot be queried, or is "java"
 * when there is no URI at all.
 */
module Language {
  import opened Wrappers

  /** The eleven rule sets the editor can highlight with. */
  datatype Lang = CPP | CSharp | Go | Java | JSON | PHP | Python | Ruby | Swift | TSJS | XML

  /** The identifier the editor falls back to. */
  const DefaultLanguageId: string := "java"

  /** The identifiers the `when` expression lists for each rule set. */
  function Aliases(l: Lang): set<string>
  {
    match l
    case CPP => {"cpp", "c", "h", "hpp"}
    case CSharp => {"csharp", "cs"}
    case Go => {"go"}
    case Java => {"java"}
    case JSON => {"json", "jsonc"}
    case PHP => {"php", "php3", "php4", "php5", "phtml"}
    case Python => {"py", "pyc", "pyo"}
    case Ruby => {"rb"}
    case Swift => {"swift"}
    case TSJS => {"ts", "js"}
    case XML => {"xml", "xsd", "xsl"}
  }

  /** Every identifier that some branch of the `when` expression names. */
  function KnownIds(): set<string>
  {
    Aliases(CPP) + Aliases(CSharp) + Aliases(Go) + Aliases(Java) + Aliases(JSON) + Aliases(PHP)
    + Aliases(Python) + Aliases(Ruby) + Aliases(Swift) + Aliases(TSJS) + Aliases(XML)
  }

  /**
   * The rule set chosen for a language identifier. Total: an identifier that no branch names
   * keeps the initial `Java()` choice. Matching is exact; nothing is lower-cased.
   */
  function ResolveLanguage(id: string): (l: Lang)
    ensures forall k: Lang :: id in Aliases(k) ==> l == k
    ensures l != Java ==> id in Aliases(l)
  {
    if id in {"cpp", "c", "h", "hpp"} then CPP
    else if id in {"csharp", "cs"} then CSharp
    else if id == "go" then Go
    else if id == "java" then Java
    else if id in {"json", "jsonc"} then JSON
    else if id in {"php", "php3", "php4", "php5", "phtml"} then PHP
    else if id in {"py", "pyc", "pyo"} then Python
    else if id == "rb" then Ruby
    else if id == "swift" then Swift
    else if id in {"ts", "js"} then TSJS
    else if id in {"xml", "xsd", "xsl"} then XML
    else Java
  }

  /** An identifier that no branch names resolves exactly as "java" does. */
  lemma UnknownFallsBackToJava(id: string)
    requires id !in KnownIds()
    ensures ResolveLanguage(id) == Java == ResolveLanguage(DefaultLanguageId)
  {
  }

  /** Every rule set is reachable, and each identifier the `when` lists selects its own rule set. */
  lemma AliasesSelectTheirLanguage(l: Lang, id: string)
    requires id in Aliases(l)
    ensures ResolveLanguage(id) == l
  {
  }

  /** No identifier is listed under two rule sets, so the order of the branches does not matter. */
  lemma AliasesDisjoint(l: Lang, k: Lang, id: string)
    requires id in Aliases(l) && id in Aliases(k)
    ensures l == k
  {
  }

  // ---------------------------------------------------------------------------------------------
  // Extension extraction: `name.split(".").last()`

  /** Joins parts with '.' between them; the inverse of `Split`. */
  function Join(parts: seq<string>): string
    requires |parts| >= 1
  {
    if |parts| == 1 then parts[0] else parts[0] + "." + Join(parts[1..])
  }

  /**
   * Kotlin's `s.split(".")`: the maximal dot-free pieces, in order, empty pieces kept (a leading,
   * trailing or doubled '.' yields an empty piece; "" yields [""]).
   */
  function Split(s: string): (parts: seq<string>)
    ensures |parts| >= 1
    ensures forall i :: 0 <= i < |parts| ==> '.' !in parts[i]
    ensures Join(parts) == s
  {
    if s == [] then [[]]
    else
      var rest := Split(s[1..]);
      if s[0] == '.' then
        assert ([[]] + rest)[1..] == rest;
        [[]] + rest
      else
        var parts := [[s[0]] + rest[0]] + rest[1..];
        assert parts[1..] == rest[1..];
        assert s == [s[0]] + s[1..];
        parts
  }

  /** Joining after the last piece: the last piece is what follows the last separator. */
  lemma {:induction false} JoinLast(parts: seq<string>)
    requires |parts| >= 2
    ensures Join(parts) == Join(parts[..|parts| - 1]) + "." + parts[|parts| - 1]
  {
    if |parts| > 2 {
      JoinLast(parts[1..]);
      assert parts[1..][..|parts| - 2] == parts[..|parts| - 1][1..];
    }
  }

  /**
   * The extension of a file name, `name.split(".").last()`: the longest suffix of `name` that
   * contains no '.', which is the whole name when it has no '.' and empty when it ends in one.
   */
  function ExtOf(name: string): (ext: string)
    ensures '.' !in ext
    ensures |ext| <= |name| && name[|name| - |ext|..] == ext
    ensures |ext| < |name| ==> name[|name| - |ext| - 1] == '.'
  {
    var parts := Split(name);
    var last := parts[|parts| - 1];
    assert |parts| >= 2 ==> name == Join(parts[..|parts| - 1]) + "." + last by {
      if |parts| >= 2 { JoinLast(parts); }
    }
    last
  }

  /** A name of the form base.ext, with no '.' in ext, has extension ext whatever the base is. */
  lemma ExtOfDotted(base: string, ext: string)
    requires '.' !in ext
    ensures ExtOf(base + "." + ext) == ext
  {
    var name := base + "." + ext;
    var r := ExtOf(name);
    var n := |name|;
    assert name[n - |ext|..] == ext;
    assert name[n - |ext| - 1] == '.';
    // r cannot reach back over the '.' that precedes ext ...
    assert |r| <= |ext| by {
      assert forall j :: 0 <= j < |r| ==> r[j] == name[n - |r| + j];
    }
    // ... and cannot stop short of it, since the character before r is a '.'
    assert |r| >= |ext| by {
      assert forall j :: n - |ext| <= j < n ==> name[j] == ext[j - (n - |ext|)];
    }
  }

  /** The file-name extraction the unit test checks: "example.py" has extension "py". */
  lemma ExampleExtension(name: string)
    requires name == "example.py"
    ensures ExtOf(name) == "py"
    ensures ResolveLanguage(ExtOf(name)) == Python
  {
  }

  // ---------------------------------------------------------------------------------------------
  // The identifier taken from an opened document

  /**
   * What the platform reports about a document URI: no URI at all, a provider whose query
   * returns a row (modelled by the text in the row's third column, index 2, which the code
   * reads as the file name), or a query that returns no cursor, in which case only the
   * extension the MIME-type table gives for the document's type is known (None when it has
   * none).
   */
  datatype DocumentUri = NoUri | Named(nameColumn: string) | Unnamed(mimeExtension: Option<string>)

  /**
   * The language identifier of a document: "java" without a URI, the extension of the text in
   * column 2, or the MIME table's extension converted with `toString()`, which turns a missing
   * one into the text "null".
   */
  function ExtFromUri(uri: DocumentUri): (id: string)
    ensures uri.NoUri? ==> id == DefaultLanguageId
    ensures uri.Named? ==> id == ExtOf(uri.nameColumn)
    ensures uri.Unnamed? && uri.mimeExtension.None? ==> id == "null"
    ensures uri.Unnamed? && uri.mimeExtension.Some? ==> id == uri.mimeExtension.value
  {
    match uri
    case NoUri => DefaultLanguageId
    case Named(name) => ExtOf(name)
    case Unnamed(None) => "null"
    case Unnamed(Some(ext)) => ext
  }

  /** A document the editor cannot name or type is highlighted as Java. */
  lemma UnknownDocumentIsJava(uri: DocumentUri)
    requires uri.NoUri? || uri == Unnamed(None)
    ensures ResolveLanguage(ExtFromUri(uri)) == Java
  {
  }

  // ---------------------------------------------------------------------------------------------
  // The identifier restored when the activity is created

  /** The saved instance state: none on a fresh start, or a bundle that may hold the identifier. */
  datatype SavedState = FreshStart | Restored(savedId: Option<string>)

  /**
   * The identifier as the creation code computes it: a safe call on the bundle followed by a
   * plain `toString()`, which on a fresh start renders the null result as the text "null"
   * instead of reaching the "java" default.
   */
  function LanguageIdOnCreateAsWritten(saved: SavedState): (id: string)
    ensures saved.Restored? ==> id == LanguageIdOnCreate(saved)
    ensures ResolveLanguage(id) == ResolveLanguage(LanguageIdOnCreate(saved))
  {
    match saved
    case FreshStart => "null"
    case Restored(None) => DefaultLanguageId
    case Restored(Some(id)) => id
  }

  /** The identifier the creation code evidently intends: the saved one, else "java". */
  function LanguageIdOnCreate(saved: SavedState): (id: string)
    ensures saved.Restored? && saved.savedId.Some? ==> id == saved.savedId.value
    ensures !(saved.Restored? && saved.savedId.Some?) ==> id == DefaultLanguageId
  {
    match saved
    case Restored(Some(id)) => id
    case _ => DefaultLanguageId
  }

  /**
   * On a fresh start the code as written stores "null" where "java" was meant; the rule set is
   * the same either way, because "null" falls back to Java.
   */
  lemma FreshStartLanguageId()
    ensures LanguageIdOnCreateAsWritten(FreshStart) == "null"
    ensures LanguageIdOnCreate(FreshStart) == DefaultLanguageId
    ensures LanguageIdOnCreateAsWritten(FreshStart) != LanguageIdOnCreate(FreshStart)
    ensures ResolveLanguage(LanguageIdOnCreateAsWritten(FreshStart)) == ResolveLanguage(LanguageIdOnCreate(FreshStart))
  {
  }
}
