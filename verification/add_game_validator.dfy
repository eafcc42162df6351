/**
  The add-game request validator: a required string title, a Steam URL, and
  optional GreenManGaming and Nuuvem URLs, each URL checked against a regular
  expression anchored only at its start.

  The expressions are written out as matchers. Their host parts contain
  unescaped dots, which match any character except a line terminator.
*/
module AddGameValidator {
  import opened Wrappers

  // ---------------------------------------------------------------------------
  // Character classes of JavaScript regular expressions
  // ---------------------------------------------------------------------------

  predicate IsLineTerminator(c: char) {
    c == '\n' || c == '\r' || c == '\U{2028}' || c == '\U{2029}'
  }

  /** `\s`: the characters `\S` rejects. */
  predicate IsWhitespace(c: char) {
    || c == '\t' || c == '\n' || c == '\U{B}' || c == '\U{C}' || c == '\r' || c == ' '
    || c == '\U{A0}' || c == '\U{1680}' || ('\U{2000}' <= c <= '\U{200A}')
    || c == '\U{2028}' || c == '\U{2029}' || c == '\U{202F}' || c == '\U{205F}'
    || c == '\U{3000}' || c == '\U{FEFF}'
  }

  /** `[0-9]` */
  predicate IsDigit(c: char) {
    '0' <= c <= '9'
  }

  // ---------------------------------------------------------------------------
  // Fixed prefixes with wildcard dots
  // ---------------------------------------------------------------------------

  /** One position of a fixed prefix: a literal character or an unescaped `.`. */
  datatype Atom = Lit(c: char) | AnyChar

  predicate AtomMatches(a: Atom, c: char) {
    match a
    case Lit(l) => c == l
    case AnyChar => !IsLineTerminator(c)
  }

  /** The atoms of a pattern text in which every `.` is unescaped. */
  function Pattern(text: string): (p: seq<Atom>)
    ensures |p| == |text|
    ensures forall i :: 0 <= i < |text| ==> p[i] == (if text[i] == '.' then AnyChar else Lit(text[i]))
  {
    seq(|text|, i requires 0 <= i < |text| => if text[i] == '.' then AnyChar else Lit(text[i]))
  }

  /** `s` starts with characters the atoms accept, one by one. */
  predicate StartsWith(s: string, atoms: seq<Atom>) {
    |atoms| <= |s| && forall i :: 0 <= i < |atoms| ==> AtomMatches(atoms[i], s[i])
  }

  const SteamText: string := "https://store.steampowered.com/app/"
  const GreenManGamingText: string := "https://www.greenmangaming.com/games/"
  const NuuvemText: string := "https://www.nuuvem.com/br-en/item/"

  // ---------------------------------------------------------------------------
  // The three expressions, as the regular-expression semantics reads them
  // ---------------------------------------------------------------------------

  /** `\S` at position `i`. */
  predicate NonSpaceAt(s: string, i: int) {
    0 <= i < |s| && !IsWhitespace(s[i])
  }

  /** `[0-9]{k}\/\S` starting at position `from`. */
  predicate AppIdAt(s: string, from: nat, k: nat) {
    && from + k < |s|
    && (forall j :: from <= j < from + k ==> IsDigit(s[j]))
    && s[from + k] == '/'
    && NonSpaceAt(s, from + k + 1)
  }

  /** `/^https:\/\/store.steampowered.com\/app\/[0-9]{1,7}\/\S+/` finds a match in `s`. */
  predicate SteamPattern(s: string) {
    && StartsWith(s, Pattern(SteamText))
    && exists k :: 1 <= k <= 7 && AppIdAt(s, |SteamText|, k)
  }

  /** `/^https:\/\/www.greenmangaming.com\/games\/\S+/` finds a match in `s`. */
  predicate GreenManGamingPattern(s: string) {
    StartsWith(s, Pattern(GreenManGamingText)) && NonSpaceAt(s, |GreenManGamingText|)
  }

  /** `/^https:\/\/www.nuuvem.com\/br-en\/item\/\S+/` finds a match in `s`. */
  predicate NuuvemPattern(s: string) {
    StartsWith(s, Pattern(NuuvemText)) && NonSpaceAt(s, |NuuvemText|)
  }

  // ---------------------------------------------------------------------------
  // The Steam matcher: scan the app id once instead of trying 1 to 7 digits
  // ---------------------------------------------------------------------------

  /** The number of consecutive digits in `s` from position `i`. */
  function DigitRun(s: string, i: nat): (n: nat)
    requires i <= |s|
    ensures i + n <= |s|
    ensures forall j :: i <= j < i + n ==> IsDigit(s[j])
    ensures i + n < |s| ==> !IsDigit(s[i + n])
    decreases |s| - i
  {
    if i < |s| && IsDigit(s[i]) then 1 + DigitRun(s, i + 1) else 0
  }

  /** Since `/` is not a digit, the only id length that can match is the whole digit run. */
  lemma AppIdLengthIsRun(s: string, from: nat)
    requires from <= |s|
    ensures forall k :: AppIdAt(s, from, k) ==> k == DigitRun(s, from)
  {
  }

  /** The Steam pattern, matched by one scan of the app id. */
  function SteamUrlMatches(s: string): (b: bool)
    ensures b <==> SteamPattern(s)
  {
    var from := |SteamText|;
    if !StartsWith(s, Pattern(SteamText)) then false
    else
      var n := DigitRun(s, from);
      AppIdLengthIsRun(s, from);
      var b := 1 <= n <= 7 && AppIdAt(s, from, n);
      b
  }

  // ---------------------------------------------------------------------------
  // The validator
  // ---------------------------------------------------------------------------

  /** A property of the parsed request body. */
  datatype JsValue = Undefined | Str(s: string) | NotString

  /** The request body: an object with the four properties the schema reads, or anything else. */
  datatype Payload =
    | NonObject
    | Object(title: JsValue, steamUrl: JsValue, greenManGamingUrl: JsValue, nuuvemUrl: JsValue)

  datatype Field = Title | SteamUrl | GreenManGamingUrl | NuuvemUrl

  /** A property's place among the schema's keys. */
  function SchemaPosition(f: Field): nat {
    match f
    case Title => 0
    case SteamUrl => 1
    case GreenManGamingUrl => 2
    case NuuvemUrl => 3
  }

  /** `invalid_type` for a missing or non-string value, `invalid_string` for a failed regex. */
  datatype IssueCode = InvalidType | InvalidString

  /** One issue; the path is `None` for the body itself. */
  datatype Issue = Issue(path: Option<Field>, code: IssueCode)

  datatype Validation = Valid | Invalid(issues: seq<Issue>)

  /** What the schema says about one property: no issue, or the issue it raises. */
  function FieldIssue(v: JsValue, optional: bool, pattern: string -> bool): Option<IssueCode> {
    match v
    case Undefined => if optional then None else Some(InvalidType)
    case NotString => Some(InvalidType)
    case Str(s) => if pattern(s) then None else Some(InvalidString)
  }

  function AnyTitle(s: string): bool {
    true
  }

  function IssuesAt(f: Field, code: Option<IssueCode>): seq<Issue> {
    match code
    case None => []
    case Some(c) => [Issue(Some(f), c)]
  }

  /** A property satisfies the schema: absent only if optional, and a string accepted by its pattern. */
  predicate Accepts(v: JsValue, optional: bool, pattern: string -> bool) {
    (v.Undefined? && optional) || (v.Str? && pattern(v.s))
  }

  /**
    The issues zod raises for an object body: one per property that fails the
    schema, in the schema's key order, and none otherwise.
  */
  function ObjectIssues(data: Payload): (issues: seq<Issue>)
    requires data.Object?
    ensures issues == [] <==>
              && Accepts(data.title, false, AnyTitle)
              && Accepts(data.steamUrl, false, SteamUrlMatches)
              && Accepts(data.greenManGamingUrl, true, GreenManGamingPattern)
              && Accepts(data.nuuvemUrl, true, NuuvemPattern)
    ensures Issue(Some(Title), InvalidType) in issues <==> !data.title.Str?
    ensures (exists c :: Issue(Some(SteamUrl), c) in issues) <==> !Accepts(data.steamUrl, false, SteamUrlMatches)
    ensures (exists c :: Issue(Some(GreenManGamingUrl), c) in issues)
              <==> !Accepts(data.greenManGamingUrl, true, GreenManGamingPattern)
    ensures (exists c :: Issue(Some(NuuvemUrl), c) in issues) <==> !Accepts(data.nuuvemUrl, true, NuuvemPattern)
    ensures |issues| <= 4 && InSchemaOrder(issues)
  {
    var a := FieldIssue(data.title, false, AnyTitle);
    var b := FieldIssue(data.steamUrl, false, SteamUrlMatches);
    var c := FieldIssue(data.greenManGamingUrl, true, GreenManGamingPattern);
    var d := FieldIssue(data.nuuvemUrl, true, NuuvemPattern);
    IssuesInSchemaOrder(a, b, c, d);
    IssuesAt(Title, a) + IssuesAt(SteamUrl, b) + IssuesAt(GreenManGamingUrl, c) + IssuesAt(NuuvemUrl, d)
  }

  /**
    `validate`: success exactly when the title is a string, the Steam URL
    matches its pattern, and each of the other two URLs is absent or matches
    its pattern. A failure of an object body lists one issue per offending
    property, in the schema's order, and nothing else; any other body fails
    with a single type issue at the root.
  */
  function Validate(data: Payload): (r: Validation)
    ensures r.Valid? <==>
              && data.Object?
              && data.title.Str?
              && data.steamUrl.Str? && SteamPattern(data.steamUrl.s)
              && (data.greenManGamingUrl.Undefined?
                  || (data.greenManGamingUrl.Str? && GreenManGamingPattern(data.greenManGamingUrl.s)))
              && (data.nuuvemUrl.Undefined? || (data.nuuvemUrl.Str? && NuuvemPattern(data.nuuvemUrl.s)))
    ensures r.Invalid? ==> |r.issues| > 0
    ensures r.Invalid? && data.Object? ==>
              && (Issue(Some(Title), InvalidType) in r.issues <==> !data.title.Str?)
              && ((exists c :: Issue(Some(SteamUrl), c) in r.issues) <==> !Accepts(data.steamUrl, false, SteamUrlMatches))
              && ((exists c :: Issue(Some(GreenManGamingUrl), c) in r.issues)
                    <==> !Accepts(data.greenManGamingUrl, true, GreenManGamingPattern))
              && ((exists c :: Issue(Some(NuuvemUrl), c) in r.issues) <==> !Accepts(data.nuuvemUrl, true, NuuvemPattern))
    ensures r.Invalid? && data.Object? ==> |r.issues| <= 4 && InSchemaOrder(r.issues)
    ensures data.NonObject? ==> r == Invalid([Issue(None, InvalidType)])
  {
    match data
    case NonObject => Invalid([Issue(None, InvalidType)])
    case Object(_, _, _, _) =>
      var issues := ObjectIssues(data);
      if issues == [] then Valid else Invalid(issues)
  }

  /** Issues in schema order: each names a property, and the properties strictly follow the schema's key order. */
  predicate InSchemaOrder(issues: seq<Issue>) {
    && (forall i :: 0 <= i < |issues| ==> issues[i].path.Some?)
    && (forall i, j :: 0 <= i < j < |issues| && issues[i].path.Some? && issues[j].path.Some? ==>
          SchemaPosition(issues[i].path.value) < SchemaPosition(issues[j].path.value))
  }

  lemma IssuesInSchemaOrder(a: Option<IssueCode>, b: Option<IssueCode>, c: Option<IssueCode>, d: Option<IssueCode>)
    ensures var issues := IssuesAt(Title, a) + IssuesAt(SteamUrl, b) + IssuesAt(GreenManGamingUrl, c) + IssuesAt(NuuvemUrl, d);
            |issues| <= 4 && InSchemaOrder(issues)
  {
    AppendIssue([], Title, a);
    AppendIssue(IssuesAt(Title, a), SteamUrl, b);
    AppendIssue(IssuesAt(Title, a) + IssuesAt(SteamUrl, b), GreenManGamingUrl, c);
    AppendIssue(IssuesAt(Title, a) + IssuesAt(SteamUrl, b) + IssuesAt(GreenManGamingUrl, c), NuuvemUrl, d);
  }

  /** Every issue names a property placed before position `k` of the schema. */
  predicate NamesBefore(issues: seq<Issue>, k: nat) {
    forall i :: 0 <= i < |issues| ==> issues[i].path.Some? && SchemaPosition(issues[i].path.value) < k
  }

  lemma AppendIssue(issues: seq<Issue>, f: Field, code: Option<IssueCode>)
    requires InSchemaOrder(issues) && NamesBefore(issues, SchemaPosition(f))
    ensures InSchemaOrder(issues + IssuesAt(f, code))
    ensures NamesBefore(issues + IssuesAt(f, code), SchemaPosition(f) + 1)
    ensures |issues + IssuesAt(f, code)| <= |issues| + 1
  {
  }

  // ---------------------------------------------------------------------------
  // Properties of the patterns
  // ---------------------------------------------------------------------------

  predicate AllDigits(id: string) {
    forall j :: 0 <= j < |id| ==> IsDigit(id[j])
  }

  lemma PatternTextMatchesItself(text: string, rest: string)
    requires forall i :: 0 <= i < |text| ==> !IsLineTerminator(text[i])
    ensures StartsWith(text + rest, Pattern(text))
  {
    var s := text + rest;
    forall i | 0 <= i < |text| ensures AtomMatches(Pattern(text)[i], s[i]) {
      assert s[i] == text[i];
    }
  }

  /**
    A Steam store URL with a numeric app id matches exactly when the id has 1
    to 7 digits and the `/` after it is followed by a non-space character: an
    8-digit id is rejected.
  */
  lemma SteamAppIdLength(id: string, rest: string)
    requires AllDigits(id)
    ensures SteamPattern(SteamText + id + "/" + rest) <==> 1 <= |id| <= 7 && rest != [] && !IsWhitespace(rest[0])
  {
    var s := SteamText + id + "/" + rest;
    var from := |SteamText|;
    assert s == SteamText + (id + "/" + rest);
    PatternTextMatchesItself(SteamText, id + "/" + rest);
    assert forall j :: 0 <= j < |id| ==> s[from + j] == id[j];
    assert s[from + |id|] == '/';
    assert AppIdAt(s, from, |id|) <==> rest != [] && !IsWhitespace(rest[0]) by {
      if rest != [] {
        assert s[from + |id| + 1] == rest[0];
      }
    }
    AppIdLengthIsRun(s, from);
    if 1 <= |id| <= 7 && rest != [] && !IsWhitespace(rest[0]) {
      assert AppIdAt(s, from, |id|);
    }
  }

  /** The patterns are anchored only at the start: anything may follow a match. */
  lemma MatchIgnoresSuffix(s: string, t: string)
    ensures SteamPattern(s) ==> SteamPattern(s + t)
    ensures GreenManGamingPattern(s) ==> GreenManGamingPattern(s + t)
    ensures NuuvemPattern(s) ==> NuuvemPattern(s + t)
  {
    if SteamPattern(s) {
      var k :| 1 <= k <= 7 && AppIdAt(s, |SteamText|, k);
      assert AppIdAt(s + t, |SteamText|, k);
    }
  }

  /**
    The unescaped dots match any character but a line terminator, so a host
    such as `storeXsteampoweredXcom` passes the Steam pattern. Characters are
    Unicode scalar values here: a JavaScript expression without the `u` flag
    sees a character above U+FFFF as two code units, so for such `c1` or `c2`
    it rejects the string this lemma accepts.
  */
  lemma LookalikeSteamHostAccepted(c1: char, c2: char)
    requires !IsLineTerminator(c1) && !IsLineTerminator(c2)
    ensures SteamPattern("https://store" + [c1] + "steampowered" + [c2] + "com/app/1/x")
  {
    var s := "https://store" + [c1] + "steampowered" + [c2] + "com/app/1/x";
    var p := Pattern(SteamText);
    forall i | 0 <= i < |p| ensures AtomMatches(p[i], s[i]) {
      if i != 13 && i != 26 {
        assert SteamText[i] != '.' && s[i] == SteamText[i];
      }
    }
    assert AppIdAt(s, |SteamText|, 1);
  }

  /** A Nuuvem URL passes only with the `/br-en/item/` path after the host. */
  lemma NuuvemNeedsItemPath(s: string)
    requires NuuvemPattern(s)
    ensures s[22..34] == "/br-en/item/"
  {
    var p := Pattern(NuuvemText);
    forall i | 22 <= i < 34 ensures s[i] == NuuvemText[i] {
      assert NuuvemText[i] != '.';
      assert AtomMatches(p[i], s[i]);
    }
  }

  /** An absent GreenManGaming or Nuuvem URL never raises an issue. */
  lemma AbsentOptionalUrlsRaiseNothing(data: Payload)
    requires data.Object? && data.greenManGamingUrl.Undefined? && data.nuuvemUrl.Undefined?
    ensures Validate(data).Valid? <==> data.title.Str? && data.steamUrl.Str? && SteamPattern(data.steamUrl.s)
    ensures Validate(data).Invalid? ==>
              forall i :: 0 <= i < |Validate(data).issues| ==> Validate(data).issues[i].path in {Some(Title), Some(SteamUrl)}
  {
  }
}
