/// The start-up conversion of browser-exported cookies (main.py:51-73): when
/// the Netscape cookie file is missing or empty, cookies.json is rewritten as
/// one tab-separated line per cookie. Files are values; JSON decoding is an input.
module Cookies {
  import opened Text

  /** A JSON value as Python sees it after `json.load`; `Other` is a float, list or object, with its `str()` and truthiness. */
  datatype Value = JStr(s: string) | JBool(b: bool) | JInt(i: int) | JNull | Other(text: string, truthy: bool)

  /** One element of the decoded list: an object, or anything without `.get` (which raises). */
  datatype Entry = Object(fields: map<string, Value>) | NotObject

  /** `str(v)`, as an f-string renders it. */
  function Str(v: Value): string
  {
    match v
    case JStr(s) => s
    case JBool(b) => if b then "True" else "False"
    case JInt(i) => IntToString(i)
    case JNull => "None"
    case Other(text, _) => text
  }

  predicate Truthy(v: Value)
  {
    match v
    case JStr(s) => s != ""
    case JBool(b) => b
    case JInt(i) => i != 0
    case JNull => false
    case Other(_, t) => t
  }

  /** `cookie.get(key, default)`. */
  function Get(fields: map<string, Value>, key: string, default: Value): Value
  {
    if key in fields then fields[key] else default
  }

  const Header: string := "# Netscape HTTP Cookie File\n"

  /** The include-subdomains column: TRUE exactly when `hostOnly` is absent or the boolean false (`is False`). */
  function HostFlag(fields: map<string, Value>): string
  {
    if Get(fields, "hostOnly", JBool(false)) == JBool(false) then "TRUE" else "FALSE"
  }

  function SecureFlag(fields: map<string, Value>): string
  {
    if Truthy(Get(fields, "secure", JBool(false))) then "TRUE" else "FALSE"
  }

  /** The seven columns, with the defaults of main.py:58-64. */
  function Columns(fields: map<string, Value>): seq<string>
  {
    [Str(Get(fields, "domain", JStr(""))), HostFlag(fields), Str(Get(fields, "path", JStr("/"))),
     SecureFlag(fields), Str(Get(fields, "expirationDate", JInt(0))),
     Str(Get(fields, "name", JStr(""))), Str(Get(fields, "value", JStr("")))]
  }

  /** The line written for one cookie: its columns joined by tabs, then a newline. */
  function CookieLine(fields: map<string, Value>): string
  {
    Join(Columns(fields), '\t') + "\n"
  }

  /** The lines for the objects of `entries`, in order; the text written before any non-object. */
  function Lines(entries: seq<Entry>): string
  {
    if entries == [] then ""
    else Lines(entries[..|entries| - 1])
         + (match entries[|entries| - 1] case Object(f) => CookieLine(f) case NotObject => "")
  }

  /** The index of the first non-object, or `|entries|`. */
  function FirstNonObject(entries: seq<Entry>): (k: nat)
    ensures k <= |entries|
    ensures forall j :: 0 <= j < k ==> entries[j].Object?
    ensures k < |entries| ==> entries[k].NotObject?
  {
    if entries == [] then 0
    else if entries[0].NotObject? then 0
    else
      var k := FirstNonObject(entries[1..]);
      assert forall j :: 1 <= j < k + 1 ==> entries[j] == entries[1..][j - 1];
      k + 1
  }

  /**
   * A line splits back into its seven columns, each with its default, when no
   * column holds a tab or a newline; the host flag is TRUE exactly for an
   * absent or false `hostOnly`, and the secure flag exactly for a truthy `secure`.
   */
  lemma LineColumns(fields: map<string, Value>)
    requires forall k :: 0 <= k < 7 ==> '\t' !in Columns(fields)[k]
    ensures var line := CookieLine(fields);
      && line[|line| - 1] == '\n'
      && Split(line[..|line| - 1], '\t') == Columns(fields)
      && (Columns(fields)[1] == "TRUE" <==> "hostOnly" !in fields || fields["hostOnly"] == JBool(false))
      && (Columns(fields)[3] == "TRUE" <==> "secure" in fields && Truthy(fields["secure"]))
  {
    var c := Columns(fields);
    var line := CookieLine(fields);
    assert line[..|line| - 1] == Join(c, '\t');
    SplitJoin(c, '\t');
  }

  /**
   * The conversion loop: the header, then one line per cookie in input order.
   * A non-object raises: the file keeps what was written up to it (the `with`
   * block closes it) and `failed` is set.
   */
  method WriteCookieFile(entries: seq<Entry>) returns (content: string, failed: bool)
    ensures failed <==> exists j :: 0 <= j < |entries| && entries[j].NotObject?
    ensures content == Header + Lines(entries[..FirstNonObject(entries)])
  {
    var written := "";
    failed := false;
    for i := 0 to |entries|
      invariant forall j :: 0 <= j < i ==> entries[j].Object?
      invariant written == Lines(entries[..i])
    {
      if entries[i].NotObject? {
        FirstNonObjectAt(entries, i);
        failed := true;
        content := Header + written;
        return;
      }
      assert forall j :: 0 <= j < i + 1 ==> entries[j].Object?;
      LinesStep(entries, i, written);
      written := written + CookieLine(entries[i].fields);
    }
    FirstNonObjectAt(entries, |entries|);
    content := Header + written;
  }

  /** A cookie's values free of newlines, so that its line is exactly one line of the file. */
  predicate OneLine(fields: map<string, Value>)
  {
    forall k :: 0 <= k < 7 ==> '\n' !in Columns(fields)[k]
  }

  /** With newline-free values, the text written holds exactly one line per cookie. */
  lemma {:induction false} OneLinePerCookie(entries: seq<Entry>)
    requires forall j :: 0 <= j < |entries| ==> entries[j].Object? && OneLine(entries[j].fields)
    ensures Occurrences(Lines(entries), '\n') == |entries|
  {
    if entries != [] {
      var last := entries[|entries| - 1];
      OneLinePerCookie(entries[..|entries| - 1]);
      JoinFree(Columns(last.fields), '\t', '\n');
      OccurrencesAbsent(Join(Columns(last.fields), '\t'), '\n');
      OccurrencesConcat(Join(Columns(last.fields), '\t'), "\n", '\n');
      OccurrencesConcat(Lines(entries[..|entries| - 1]), CookieLine(last.fields), '\n');
    }
  }

  /** Joining pieces free of `x` with a separator other than `x` gives a string free of `x`. */
  lemma {:induction false} JoinFree(parts: seq<string>, sep: char, x: char)
    requires 0 < |parts| && sep != x
    requires forall k :: 0 <= k < |parts| ==> x !in parts[k]
    ensures x !in Join(parts, sep)
  {
    if |parts| > 1 {
      JoinFree(parts[1..], sep, x);
    }
  }

  lemma FirstNonObjectAt(entries: seq<Entry>, i: nat)
    requires i <= |entries|
    requires forall j :: 0 <= j < i ==> entries[j].Object?
    requires i < |entries| ==> entries[i].NotObject?
    ensures FirstNonObject(entries) == i
  {
  }

  lemma LinesStep(entries: seq<Entry>, i: nat, written: string)
    requires i < |entries| && entries[i].Object? && written == Lines(entries[..i])
    ensures written + CookieLine(entries[i].fields) == Lines(entries[..i + 1])
  {
    assert entries[..i + 1][..i] == entries[..i];
  }

  /** The cookie file as the program finds it: absent, or present with its text. */
  datatype TextFile = Absent | Present(content: string)

  /**
   * cookies.json: absent, unreadable or not JSON, decoded to something the loop
   * cannot iterate (a number, a boolean, null), or decoded to the sequence the
   * loop walks (a list's elements; an object's keys and a string's characters
   * are `NotObject` entries).
   */
  datatype JsonFile = NoJson | Undecodable | NotIterable | Decoded(entries: seq<Entry>)

  /** Whether start-up goes on or calls `exit(1)`. */
  datatype Startup = Proceed | ExitOne

  /**
   * The module-level block (main.py:51-73): nothing to do when the cookie file
   * is present and non-empty; a missing or undecodable cookies.json exits
   * before the cookie file is opened; a cookie file that cannot be opened for
   * writing (`writable` false) exits with it untouched; otherwise the file is
   * rewritten, and a failure while writing (the loop cannot start, or an entry
   * has no `.get`) exits after the lines written so far.
   */
  method PrepareCookies(txt: TextFile, json: JsonFile, writable: bool) returns (txt': TextFile, result: Startup)
    ensures txt.Present? && txt.content != "" ==> txt' == txt && result == Proceed
    ensures (txt.Absent? || txt.content == "") && (json.NoJson? || json.Undecodable?) ==> txt' == txt && result == ExitOne
    ensures (txt.Absent? || txt.content == "") && (json.NotIterable? || json.Decoded?) && !writable ==>
      txt' == txt && result == ExitOne
    ensures (txt.Absent? || txt.content == "") && json.NotIterable? && writable ==> txt' == Present(Header) && result == ExitOne
    ensures (txt.Absent? || txt.content == "") && json.Decoded? && writable ==>
      && txt' == Present(Header + Lines(json.entries[..FirstNonObject(json.entries)]))
      && (result == ExitOne <==> exists j :: 0 <= j < |json.entries| && json.entries[j].NotObject?)
  {
    if txt.Present? && txt.content != "" {
      return txt, Proceed;
    }
    if json.NoJson? || json.Undecodable? || !writable {
      return txt, ExitOne;
    }
    if json.NotIterable? {
      return Present(Header), ExitOne;
    }
    var content, failed := WriteCookieFile(json.entries);
    txt' := Present(content);
    result := if failed then ExitOne else Proceed;
  }

  /**
   * Whatever a conversion wrote, the file is then present and non-empty, so
   * the next start keeps it, even the partial file of a failed conversion.
   */
  lemma ConversionNotRepeated(entries: seq<Entry>)
    ensures var content := Header + Lines(entries[..FirstNonObject(entries)]);
      content != "" && content[..|Header|] == Header
  {
  }
}
