/** Direct-message templates: the placeholder scanner and the one-pass substitution. */
module DmTemplate {
  import opened Options
  import Text

  // -----------------------------------------------------------------------
  // The placeholder grammar

  predicate NameStart(c: char) {
    'A' <= c <= 'Z' || 'a' <= c <= 'z' || c == '_'
  }

  predicate NamePart(c: char) {
    NameStart(c) || '0' <= c <= '9'
  }

  predicate IsName(s: string) {
    s != "" && NameStart(s[0]) && forall i :: 0 <= i < |s| ==> NamePart(s[i])
  }

  /** A name is not empty, consists of ASCII letters, digits and underscores, and does not begin with a digit. */
  lemma IsNameExactly(s: string)
    ensures IsName(s)
       <==> && |s| >= 1 && !(47 < s[0] as int < 58)
            && forall i :: 0 <= i < |s| ==>
                 var n := s[i] as int; (64 < n < 91) || (96 < n < 123) || (47 < n < 58) || n == 95
  {
    forall i | 0 <= i < |s|
      ensures NamePart(s[i]) <==>
                var n := s[i] as int; (64 < n < 91) || (96 < n < 123) || (47 < n < 58) || n == 95
      ensures NameStart(s[i]) <==> NamePart(s[i]) && !(47 < s[i] as int < 58)
    {
    }
  }

  predicate Blank(s: string) {
    forall i :: 0 <= i < |s| ==> Text.IsSpace(s[i])
  }

  /** What stands between the braces: blanks, a name, blanks. */
  datatype Parts = Parts(before: string, name: string, after: string)
  {
    predicate WellFormed() {
      Blank(before) && IsName(name) && Blank(after)
    }

    function Inside(): string {
      before + name + after
    }
  }

  function Raw(braces: nat, p: Parts): string {
    Repeat('{', braces) + p.Inside() + Repeat('}', braces)
  }

  function Repeat(c: char, n: nat): (s: string)
    ensures |s| == n && forall i :: 0 <= i < n ==> s[i] == c
  {
    if n == 0 then "" else [c] + Repeat(c, n - 1)
  }

  /** One placeholder, in one or two pairs of braces. */
  ghost predicate IsToken(raw: string, name: string) {
    exists braces: nat, p: Parts :: 1 <= braces <= 2 && p.WellFormed() && p.name == name && raw == Raw(braces, p)
  }

  // -----------------------------------------------------------------------
  // The scanner

  function Blanks(s: string): (n: nat)
    ensures n <= |s|
  {
    if s == "" || !Text.IsSpace(s[0]) then 0 else 1 + Blanks(s[1..])
  }

  function NameParts(s: string): (n: nat)
    ensures n <= |s|
  {
    if s == "" || !NamePart(s[0]) then 0 else 1 + NameParts(s[1..])
  }

  /** Blanks, a name and blanks at the beginning of `s`, each part taking all it can, and what is left. */
  function SplitInside(s: string): (Parts, string) {
    var n := s[Blanks(s)..];
    var a := n[NameParts(n)..];
    (Parts(s[..Blanks(s)], n[..NameParts(n)], a[..Blanks(a)]), a[Blanks(a)..])
  }

  datatype Match = Match(length: nat, name: string)

  predicate Leads(s: string, c: char, n: nat) {
    n <= |s| && s[..n] == Repeat(c, n)
  }

  /** The alternative with `braces` braces, tried at the beginning of `s`. */
  function MatchBraces(s: string, braces: nat): Option<Match> {
    if !Leads(s, '{', braces) then None
    else
      var (p, rest) := SplitInside(s[braces..]);
      if IsName(p.name) && Leads(rest, '}', braces) then Some(Match(|Raw(braces, p)|, p.name)) else None
  }

  /** What the expression matches at the beginning of `s`; two braces are tried first. */
  function MatchHere(s: string): Option<Match> {
    var double := MatchBraces(s, 2);
    if double.Some? then double else MatchBraces(s, 1)
  }

  lemma {:induction false} BlanksMax(before: string, rest: string)
    requires Blank(before) && (rest == "" || !Text.IsSpace(rest[0]))
    ensures Blanks(before + rest) == |before|
  {
    if before == "" {
      assert before + rest == rest;
    } else {
      BlanksMax(before[1..], rest);
      assert (before + rest)[1..] == before[1..] + rest;
    }
  }

  lemma {:induction false} BlanksBlank(s: string)
    ensures Blank(s[..Blanks(s)])
  {
    if s != "" && Text.IsSpace(s[0]) {
      BlanksBlank(s[1..]);
      assert s[..Blanks(s)] == [s[0]] + s[1..][..Blanks(s[1..])];
    }
  }

  lemma {:induction false} NamePartsMax(name: string, rest: string)
    requires (forall i :: 0 <= i < |name| ==> NamePart(name[i])) && (rest == "" || !NamePart(rest[0]))
    ensures NameParts(name + rest) == |name|
  {
    if name == "" {
      assert name + rest == rest;
    } else {
      NamePartsMax(name[1..], rest);
      assert (name + rest)[1..] == name[1..] + rest;
    }
  }

  lemma SplitExact(p: Parts, rest: string)
    requires p.WellFormed() && rest != "" && rest[0] == '}'
    ensures SplitInside(p.Inside() + rest) == (p, rest)
  {
    hide IsName, Blank;
    var s := p.Inside() + rest;
    var a := p.after + rest;
    var n := p.name + a;
    assert s == p.before + n;
    FirstChars(p, rest);
    BlanksMax(p.before, n);
    NamePartsMax(p.name, a);
    BlanksMax(p.after, rest);
  }

  lemma FirstChars(p: Parts, rest: string)
    requires p.WellFormed() && rest != "" && rest[0] == '}'
    ensures !Text.IsSpace((p.name + (p.after + rest))[0]) && !NamePart((p.after + rest)[0]) && !Text.IsSpace(rest[0])
    ensures forall i :: 0 <= i < |p.name| ==> NamePart(p.name[i])
  {
  }

  lemma SplitLossless(s: string)
    ensures var (p, rest) := SplitInside(s); s == p.Inside() + rest && Blank(p.before) && Blank(p.after)
  {
    BlanksBlank(s);
    var n := s[Blanks(s)..];
    BlanksBlank(n[NameParts(n)..]);
  }

  /** Whatever has the form of a placeholder is matched whole, however the text goes on. */
  lemma TokenMatches(braces: nat, p: Parts, rest: string)
    requires 1 <= braces <= 2 && p.WellFormed()
    ensures MatchBraces(Raw(braces, p) + rest, braces) == Some(Match(|Raw(braces, p)|, p.name))
  {
    hide SplitInside, Blank, IsName;
    var s, close := Raw(braces, p) + rest, Repeat('}', braces) + rest;
    assert s[..braces] == Repeat('{', braces);
    assert s[braces..] == p.Inside() + close;
    SplitExact(p, close);
    assert close[..braces] == Repeat('}', braces);
  }

  /** Whatever is matched has the form of a placeholder. */
  lemma MatchIsToken(s: string, braces: nat)
    requires 1 <= braces <= 2 && MatchBraces(s, braces).Some?
    ensures var m := MatchBraces(s, braces).value; 0 < m.length <= |s| && IsToken(s[..m.length], m.name)
  {
    hide SplitInside, Blank, IsName;
    var (p, rest) := SplitInside(s[braces..]);
    SplitLossless(s[braces..]);
    assert s[..|Raw(braces, p)|] == Raw(braces, p) by {
      assert s == s[..braces] + (p.Inside() + (rest[..braces] + rest[braces..]));
    }
  }

  /** The scanner is exact: at the beginning of a text it matches `length` characters with a name if and only
      if they are a placeholder with that name. So a text begins with at most one placeholder. */
  lemma MatchExact(s: string, length: nat, name: string)
    requires length <= |s|
    ensures MatchHere(s) == Some(Match(length, name)) <==> IsToken(s[..length], name)
  {
    hide MatchBraces, Raw;
    if MatchHere(s) == Some(Match(length, name)) {
      MatchIsToken(s, if MatchBraces(s, 2).Some? then 2 else 1);
    }
    if IsToken(s[..length], name) {
      var braces: nat, p: Parts :| 1 <= braces <= 2 && p.WellFormed() && p.name == name
          && s[..length] == Raw(braces, p);
      assert s == s[..length] + s[length..];
      TokenMatches(braces, p, s[length..]);
      if braces == 1 {
        OneBraceOnly(p, s[length..]);
      }
    }
  }

  lemma OneBraceOnly(p: Parts, rest: string)
    requires p.WellFormed()
    ensures MatchBraces(Raw(1, p) + rest, 2).None?
  {
    hide SplitInside;
    var s := Raw(1, p) + rest;
    assert s[1] == if p.before == "" then p.name[0] else p.before[0];
    assert s[..2][1] == s[1] && Repeat('{', 2)[1] == '{';
  }

  // -----------------------------------------------------------------------
  // Scanning a body

  datatype Piece = Literal(c: char) | Token(raw: string, name: string)

  /** Leftmost first, without overlap. */
  function Scan(s: string): seq<Piece> {
    if s == "" then []
    else
      var m := MatchHere(s);
      if m.Some? && 0 < m.value.length <= |s| then
          [Token(s[..m.value.length], m.value.name)] + Scan(s[m.value.length..])
      else [Literal(s[0])] + Scan(s[1..])
  }

  function Source(pieces: seq<Piece>): string {
    if pieces == [] then ""
    else PieceText(pieces[0]) + Source(pieces[1..])
  }

  function PieceText(p: Piece): string {
    match p
    case Literal(c) => [c]
    case Token(raw, _) => raw
  }

  /** How much of a non-empty text its first piece takes. */
  function Cut(s: string): (n: nat)
    requires s != ""
    ensures 0 < n <= |s|
  {
    var m := MatchHere(s);
    if m.Some? && 0 < m.value.length <= |s| then m.value.length else 1
  }

  lemma ScanStep(s: string)
    requires s != ""
    ensures Scan(s) != [] && Scan(s)[1..] == Scan(s[Cut(s)..])
    ensures PieceText(Scan(s)[0]) == s[..Cut(s)]
  {
    hide MatchHere;
  }

  lemma SourceStep(p: Piece, rest: seq<Piece>)
    ensures Source([p] + rest) == PieceText(p) + Source(rest)
  {
    assert ([p] + rest)[1..] == rest;
  }

  /** Scanning loses nothing. */
  lemma {:induction false} ScanLossless(s: string)
    ensures Source(Scan(s)) == s
  {
    hide Cut, Scan, Source, PieceText;
    if s == "" {
      NothingScanned();
    } else {
      ScanStep(s);
      ScanLossless(s[Cut(s)..]);
      SourceStep(Scan(s)[0], Scan(s)[1..]);
      assert Scan(s) == [Scan(s)[0]] + Scan(s)[1..];
      assert s == s[..Cut(s)] + s[Cut(s)..];
    }
  }

  lemma NothingScanned()
    ensures Scan("") == [] && Source([]) == ""
  {
  }

  /** Every token piece is a placeholder. */
  lemma {:induction false} ScanTokens(s: string, k: nat)
    requires k < |Scan(s)| && Scan(s)[k].Token?
    ensures IsToken(Scan(s)[k].raw, Scan(s)[k].name)
  {
    hide MatchHere, IsToken;
    var m := MatchHere(s);
    if m.Some? && 0 < m.value.length <= |s| {
      MatchExact(s, m.value.length, m.value.name);
      if k > 0 {
        ScanTokens(s[m.value.length..], k - 1);
      }
    } else {
      ScanTokens(s[1..], k - 1);
    }
  }

  /** The text begins with a placeholder. */
  ghost predicate BeginsToken(s: string) {
    exists length: nat, name: string :: length <= |s| && IsToken(s[..length], name)
  }

  lemma BeginsExact(s: string)
    ensures BeginsToken(s) <==> MatchHere(s).Some?
    ensures MatchHere(s).Some? ==> 0 < MatchHere(s).value.length <= |s|
  {
    hide MatchBraces, IsToken;
    if BeginsToken(s) {
      var length: nat, name: string :| length <= |s| && IsToken(s[..length], name);
      MatchExact(s, length, name);
    }
    if MatchHere(s).Some? {
      MatchIsToken(s, if MatchBraces(s, 2).Some? then 2 else 1);
    }
  }

  /** Where the scan leaves a literal character, no placeholder begins. */
  lemma {:induction false} ScanLiterals(s: string, k: nat)
    requires k < |Scan(s)| && Scan(s)[k].Literal?
    ensures var at := |Source(Scan(s)[..k])|;
            at < |s| && s[at] == Scan(s)[k].c && !BeginsToken(s[at..])
  {
    hide Cut, Scan, Source, BeginsToken, PieceText;
    NothingScanned();
    ScanStep(s);
    if k == 0 {
      FirstLiteral(s);
      assert Scan(s)[..0] == [] && s[0..] == s;
    } else {
      var rest := s[Cut(s)..];
      ScanLiterals(rest, k - 1);
      var before := Scan(rest)[..k - 1];
      assert Scan(s)[..k] == [Scan(s)[0]] + before;
      SourceStep(Scan(s)[0], before);
      var at := |Source(before)|;
      assert |Source(Scan(s)[..k])| == Cut(s) + at;
      assert s[Cut(s) + at..] == rest[at..];
    }
  }

  lemma FirstLiteral(s: string)
    requires s != "" && Scan(s)[0].Literal?
    ensures Scan(s)[0].c == s[0] && !BeginsToken(s)
  {
    hide MatchHere, BeginsToken;
    BeginsExact(s);
  }

  // -----------------------------------------------------------------------
  // The names in a body

  function Names(pieces: seq<Piece>): seq<string> {
    if pieces == [] then []
    else (if pieces[0].Token? then [pieces[0].name] else []) + Names(pieces[1..])
  }

  /** Each name once, where it is used first. */
  function FirstUses(names: seq<string>): seq<string> {
    if names == [] then []
    else
      var before, last := FirstUses(names[..|names| - 1]), names[|names| - 1];
      if last in before then before else before + [last]
  }

  /** One round of the search for placeholders. */
  lemma NamesStep(s: string)
    requires s != ""
    ensures var m := MatchHere(s);
            if m.Some? then 0 < m.value.length <= |s|
                && Names(Scan(s)) == [m.value.name] + Names(Scan(s[m.value.length..]))
            else Names(Scan(s)) == Names(Scan(s[1..]))
  {
    hide MatchHere;
    BeginsExact(s);
    var m := MatchHere(s);
    var first := if m.Some? then Token(s[..m.value.length], m.value.name) else Literal(s[0]);
    var rest := Scan(if m.Some? then s[m.value.length..] else s[1..]);
    assert Scan(s) == [first] + rest && ([first] + rest)[1..] == rest;
  }

  lemma FirstUsesStep(names: seq<string>, name: string)
    ensures FirstUses(names + [name]) == if name in FirstUses(names) then FirstUses(names)
        else FirstUses(names) + [name]
  {
    assert (names + [name])[..|names|] == names;
  }

  /** `find_template_tokens` */
  method FindTemplateTokens(body: string) returns (out: seq<string>)
    ensures out == FirstUses(Names(Scan(body)))
  {
    hide MatchHere, Names, Scan, FirstUses;
    var rest := body;
    var seen: set<string> := {};
    out := [];
    ghost var done: seq<string> := [];
    NothingNamed();
    while rest != ""
      invariant Names(Scan(body)) == done + Names(Scan(rest))
      invariant out == FirstUses(done)
      invariant forall name :: name in seen <==> name in out
      decreases |rest|
    {
      var m := MatchHere(rest);
      NamesStep(rest);
      if m.Some? {
        var name := m.value.name;
        FirstUsesStep(done, name);
        if name !in seen {
          seen := seen + {name};
          out := out + [name];
        }
        done := done + [name];
        rest := rest[m.value.length..];
      } else {
        rest := rest[1..];
      }
    }
    assert done + [] == done;
  }

  lemma NothingNamed()
    ensures Names(Scan("")) == [] && FirstUses([]) == []
  {
  }

  predicate Unique(names: seq<string>) {
    forall i, j :: 0 <= i < j < |names| ==> names[i] != names[j]
  }

  /** The list has exactly the names used, each once. */
  lemma {:induction false} FirstUsesExact(names: seq<string>)
    ensures Unique(FirstUses(names)) && forall name :: name in FirstUses(names) <==> name in names
  {
    if names != [] {
      var before, last := names[..|names| - 1], names[|names| - 1];
      FirstUsesExact(before);
      assert names == before + [last];
    }
  }

  /** In the order of first use: the list begins with the names of every initial part. */
  lemma {:induction false} FirstUsesInOrder(names: seq<string>, k: nat)
    requires k <= |names|
    ensures FirstUses(names[..k]) <= FirstUses(names)
  {
    if k == |names| {
      assert names[..k] == names;
    } else {
      var before := names[..|names| - 1];
      FirstUsesInOrder(before, k);
      assert before[..k] == names[..k];
    }
  }

  // -----------------------------------------------------------------------
  // Rendering

  const SUPPORTED_VARIABLES := {"username", "name", "account_username"}

  /** What the job knows; an absent entry is the empty text. */
  datatype Context = Context(
    recipientUsername: string, username: string, followerUsername: string,
    recipientName: string, displayName: string, fullName: string, name: string,
    accountUsername: string)
  {
    function Username(): string {
      Text.Strip(First([recipientUsername, username, followerUsername]))
    }

    function OwnName(): string {
      Text.Strip(First([recipientName, displayName, fullName, name]))
    }

    /** A value for each supported name; the name falls back to the user name. */
    function Value(variable: string): string {
      if variable == "username" then Username()
      else if variable == "name" then (if OwnName() != "" then OwnName() else Username())
      else if variable == "account_username" then Text.Strip(accountUsername)
      else ""
    }
  }

  /** The first text that is not empty. */
  function First(texts: seq<string>): string {
    if texts == [] then "" else if texts[0] != "" then texts[0] else First(texts[1..])
  }

  /** The text of the first of up to four entries that is there at all, without surrounding blanks. */
  function Entry(a: string, b: string, c: string, d: string): string {
    Text.Strip(if a != "" then a else if b != "" then b else if c != "" then c else d)
  }

  /** What each name stands for: the recipient's user name; the recipient's own name, and for want of it the user name;
      the sender's user name. No other name is supported or has a value. */
  lemma ValueExactly(context: Context, variable: string)
    ensures var user := Entry(context.recipientUsername, context.username, context.followerUsername, "");
            var own := Entry(context.recipientName, context.displayName, context.fullName, context.name);
            && context.Value("username") == user
            && context.Value("name") == (if own != "" then own else user)
            && context.Value("account_username") == Text.Strip(context.accountUsername)
            && (context.OwnName() == own && context.Username() == user)
    ensures variable in SUPPORTED_VARIABLES <==>
              variable == "username" || variable == "name" || variable == "account_username"
    ensures variable !in SUPPORTED_VARIABLES ==> context.Value(variable) == ""
  {
    FirstOfThree(context.recipientUsername, context.username, context.followerUsername);
    FirstOfFour(context.recipientName, context.displayName, context.fullName, context.name);
    hide First, Text.Strip;
  }

  lemma FirstOfThree(a: string, b: string, c: string)
    ensures First([a, b, c]) == if a != "" then a else if b != "" then b else if c != "" then c else ""
  {
    assert [a, b, c][1..] == [b, c] && [b, c][1..] == [c];
    assert First([c]) == c by { assert [c][1..] == [] && First([]) == ""; }
    assert First([b, c]) == if b != "" then b else c;
  }

  lemma FirstOfFour(a: string, b: string, c: string, d: string)
    ensures First([a, b, c, d]) == if a != "" then a else if b != "" then b else if c != "" then c else d
  {
    assert [a, b, c, d][1..] == [b, c, d];
    FirstOfThree(b, c, d);
  }

  datatype Reason = UnsupportedVariable | MissingVariable | UnresolvedToken

  datatype RenderResult = RenderResult(
    body: string, used: seq<string>, missing: seq<string>, nameFellBack: bool, unresolved: seq<string>,
        reason: Option<Reason>)
  {
    predicate Ok() {
      reason.None?
    }
  }

  function Select(names: seq<string>, keep: string -> bool): seq<string> {
    if names == [] then []
    else Select(names[..|names| - 1], keep) + if keep(names[|names| - 1]) then [names[|names| - 1]] else []
  }

  /** Every placeholder replaced by its value, in one pass over the pieces. */
  function Substitute(pieces: seq<Piece>, value: string -> string): string {
    if pieces == [] then ""
    else Replaced(pieces[0], value) + Substitute(pieces[1..], value)
  }

  function Replaced(piece: Piece, value: string -> string): string {
    match piece
    case Literal(c) => [c]
    case Token(_, name) => value(name)
  }

  function Tokens(body: string): seq<string> {
    FirstUses(Names(Scan(body)))
  }

  /** `render_dm_template` */
  function Render(body: string, context: Context): RenderResult {
    var tokens := Tokens(body);
    var unknown := Select(tokens, name => name !in SUPPORTED_VARIABLES);
    if unknown != [] then RenderResult(body, [], [], false, unknown, Some(UnsupportedVariable))
    else
      var fellBack := "name" in tokens && context.OwnName() == "" && context.Username() != "";
      var missing := Select(tokens, name => context.Value(name) == "");
      if missing != [] then
        RenderResult(body, Select(tokens, name => context.Value(name) != ""), missing, fellBack, missing,
            Some(MissingVariable))
      else
        var rendered := Substitute(Scan(body), name => context.Value(name));
        var unresolved := Tokens(rendered);
        RenderResult(rendered, tokens, [], fellBack, unresolved, if unresolved == [] then None
            else Some(UnresolvedToken))
  }

  lemma SelectStep(names: seq<string>, k: nat, keep: string -> bool)
    requires k < |names|
    ensures Select(names[..k + 1], keep) == Select(names[..k], keep) + if keep(names[k]) then [names[k]] else []
  {
    assert names[..k + 1][..k] == names[..k];
  }

  lemma {:induction false} SelectExact(names: seq<string>, keep: string -> bool)
    ensures forall name :: name in Select(names, keep) <==> name in names && keep(name)
  {
    if names != [] {
      SelectExact(names[..|names| - 1], keep);
      assert names == names[..|names| - 1] + [names[|names| - 1]];
    }
  }

  /** One replacement in `TOKEN_RE.sub`. */
  lemma SubstituteStep(s: string, value: string -> string)
    requires s != ""
    ensures var m := MatchHere(s);
            if m.Some? then
              0 < m.value.length <= |s|
                  && Substitute(Scan(s), value) == value(m.value.name) + Substitute(Scan(s[m.value.length..]), value)
            else Substitute(Scan(s), value) == [s[0]] + Substitute(Scan(s[1..]), value)
  {
    hide MatchHere;
    BeginsExact(s);
    var m := MatchHere(s);
    var first := if m.Some? then Token(s[..m.value.length], m.value.name) else Literal(s[0]);
    var rest := Scan(if m.Some? then s[m.value.length..] else s[1..]);
    assert Scan(s) == [first] + rest && ([first] + rest)[1..] == rest;
  }

  /** `TOKEN_RE.sub` with a replacement that notes what it replaces. */
  method Replace(body: string, context: Context) returns (rendered: string, used: seq<string>)
    ensures rendered == Substitute(Scan(body), name => context.Value(name))
    ensures used == Tokens(body)
  {
    hide MatchHere, Names, Scan, FirstUses, Substitute;
    var rest := body;
    rendered, used := "", [];
    ghost var done: seq<string> := [];
    ghost var value := (name: string) => context.Value(name);
    NothingNamed();
    assert Substitute([], value) == "" && Scan("") == [] by { NothingSubstituted(value); }
    while rest != ""
      invariant Substitute(Scan(body), value) == rendered + Substitute(Scan(rest), value)
      invariant Names(Scan(body)) == done + Names(Scan(rest))
      invariant used == FirstUses(done)
      decreases |rest|
    {
      var m := MatchHere(rest);
      NamesStep(rest);
      SubstituteStep(rest, value);
      if m.Some? {
        var name := m.value.name;
        FirstUsesStep(done, name);
        if name !in used {
          used := used + [name];
        }
        done := done + [name];
        rendered := rendered + context.Value(name);
        rest := rest[m.value.length..];
      } else {
        rendered := rendered + [rest[0]];
        rest := rest[1..];
      }
    }
    assert done + [] == done && rendered + "" == rendered;
  }

  lemma NothingSubstituted(value: string -> string)
    ensures Substitute([], value) == "" && Scan("") == []
  {
  }

  method RenderDmTemplate(body: string, context: Context) returns (r: RenderResult)
    ensures r == Render(body, context)
  {
    hide Names, Scan, FirstUses, Substitute, Context.Value, Context.OwnName, Context.Username;
    var tokens := FindTemplateTokens(body);
    var unknown: seq<string> := [];
    for k := 0 to |tokens|
      invariant unknown == Select(tokens[..k], name => name !in SUPPORTED_VARIABLES)
    {
      SelectStep(tokens, k, name => name !in SUPPORTED_VARIABLES);
      if tokens[k] !in SUPPORTED_VARIABLES {
        unknown := unknown + [tokens[k]];
      }
    }
    assert tokens[..|tokens|] == tokens;
    if unknown != [] {
      return RenderResult(body, [], [], false, unknown, Some(UnsupportedVariable));
    }
    var fellBack := "name" in tokens && context.OwnName() == "" && context.Username() != "";
    var missing: seq<string>, present: seq<string> := [], [];
    for k := 0 to |tokens|
      invariant missing == Select(tokens[..k], name => context.Value(name) == "")
      invariant present == Select(tokens[..k], name => context.Value(name) != "")
    {
      SelectStep(tokens, k, name => context.Value(name) == "");
      SelectStep(tokens, k, name => context.Value(name) != "");
      if context.Value(tokens[k]) == "" {
        missing := missing + [tokens[k]];
      } else {
        present := present + [tokens[k]];
      }
    }
    if missing != [] {
      return RenderResult(body, present, missing, fellBack, missing, Some(MissingVariable));
    }
    var rendered, used := Replace(body, context);
    var unresolved := FindTemplateTokens(rendered);
    return RenderResult(rendered, used, [], fellBack, unresolved, if unresolved == [] then None
        else Some(UnresolvedToken));
  }

  // -----------------------------------------------------------------------
  // What a result means

  /** No placeholder begins anywhere in the text. */
  ghost predicate TokenFree(s: string) {
    forall i :: 0 <= i <= |s| ==> !BeginsToken(s[i..])
  }

  lemma {:induction false} NoNamesIffTokenFree(s: string)
    ensures Names(Scan(s)) == [] <==> TokenFree(s)
  {
    hide MatchHere, BeginsToken, Names, Scan;
    BeginsExact(s);
    if s == "" {
      NothingNamed();
      NothingBegins();
      assert s[0..] == s;
    } else {
      NamesStep(s);
      NoNamesIffTokenFree(s[1..]);
      TokenFreeStep(s);
    }
  }

  lemma NothingBegins()
    ensures MatchHere("").None?
  {
  }

  lemma TokenFreeStep(s: string)
    requires s != ""
    ensures TokenFree(s) <==> !BeginsToken(s) && TokenFree(s[1..])
  {
    hide BeginsToken;
    assert s[0..] == s;
    assert forall i :: 0 <= i <= |s[1..]| ==> s[1..][i..] == s[i + 1..];
    if !BeginsToken(s) && TokenFree(s[1..]) {
      forall i | 0 < i <= |s| ensures !BeginsToken(s[i..]) {
        assert s[1..][i - 1..] == s[i..];
      }
    }
  }

  lemma NoTokensIffTokenFree(s: string)
    ensures Tokens(s) == [] <==> TokenFree(s)
  {
    hide Names, Scan, TokenFree;
    var names := Names(Scan(s));
    NoNamesIffTokenFree(s);
    FirstUsesExact(names);
    if names != [] {
      assert names[0] in FirstUses(names);
    } else {
      NothingNamed();
    }
  }

  ghost predicate AllSupported(names: seq<string>) {
    forall name :: name in names ==> name in SUPPORTED_VARIABLES
  }

  ghost predicate AllKnown(names: seq<string>, context: Context) {
    forall name :: name in names ==> context.Value(name) != ""
  }

  lemma SelectEmpty(names: seq<string>, keep: string -> bool)
    ensures Select(FirstUses(names), keep) == [] <==> forall name :: name in names ==> !keep(name)
  {
    hide FirstUses;
    var found := Select(FirstUses(names), keep);
    FirstUsesExact(names);
    SelectExact(FirstUses(names), keep);
    if found != [] {
      assert found[0] in found;
    }
  }

  /** The four outcomes, exactly: the template uses an unsupported name, or one without a value, or a
      placeholder is left in the result, or it succeeds. Nothing is replaced in the first two cases; otherwise
      the result is the one-pass substitution. */
  lemma RenderExact(body: string, context: Context)
    ensures var r, names := Render(body, context), Names(Scan(body));
            var rendered := Substitute(Scan(body), name => context.Value(name));
            && r.reason == (if !AllSupported(names) then Some(UnsupportedVariable)
                            else if !AllKnown(names, context) then Some(MissingVariable)
                            else if !TokenFree(rendered) then Some(UnresolvedToken)
                            else None)
            && r.body == if AllSupported(names) && AllKnown(names, context) then rendered else body
  {
    hide Names, Scan, FirstUses, Substitute, TokenFree, Context.Value, Context.OwnName, Context.Username, Select;
    var names := Names(Scan(body));
    SelectEmpty(names, name => name !in SUPPORTED_VARIABLES);
    SelectEmpty(names, name => context.Value(name) == "");
    NoTokensIffTokenFree(Substitute(Scan(body), name => context.Value(name)));
  }

  /** The lists of the result: an unsupported or missing variable is reported exactly when it is used, and a
      successful result lists every name used, once, in the order of first use. */
  lemma RenderNames(body: string, context: Context)
    ensures var r, names := Render(body, context), Names(Scan(body));
            && (r.reason == Some(UnsupportedVariable) ==>
                  forall name :: name in r.unresolved <==> name in names && name !in SUPPORTED_VARIABLES)
            && (r.reason == Some(MissingVariable) ==>
                  && (forall name :: name in r.missing <==> name in names && context.Value(name) == "")
                  && (forall name :: name in r.used <==> name in names && context.Value(name) != ""))
            && (r.Ok() ==> r.used == FirstUses(names) && r.missing == [] && r.unresolved == [])
            && (r.nameFellBack <==>
                  && AllSupported(names) && "name" in names
                  && Entry(context.recipientName, context.displayName, context.fullName, context.name) == ""
                  && Entry(context.recipientUsername, context.username, context.followerUsername, "") != "")
  {
    ValueExactly(context, "name");
    hide Names, Scan, FirstUses, Substitute, Select, Context.Username, Context.OwnName, Entry;
    var names := Names(Scan(body));
    SelectEmpty(names, name => name !in SUPPORTED_VARIABLES);
    FirstUsesExact(names);
    SelectExact(Tokens(body), name => name !in SUPPORTED_VARIABLES);
    SelectExact(Tokens(body), name => context.Value(name) == "");
    SelectExact(Tokens(body), name => context.Value(name) != "");
  }

  predicate BraceFree(s: string) {
    '{' !in s
  }

  predicate LiteralsBraceFree(pieces: seq<Piece>) {
    forall k :: 0 <= k < |pieces| && pieces[k].Literal? ==> pieces[k].c != '{'
  }

  lemma {:induction false} SubstituteBraceFree(pieces: seq<Piece>, value: string -> string)
    requires LiteralsBraceFree(pieces) && forall name :: name in Names(pieces) ==> BraceFree(value(name))
    ensures BraceFree(Substitute(pieces, value))
  {
    if pieces != [] {
      SubstituteBraceFree(pieces[1..], value);
    }
  }

  lemma BraceFreeIsTokenFree(s: string)
    requires BraceFree(s)
    ensures TokenFree(s)
  {
    forall i | 0 <= i <= |s| ensures !BeginsToken(s[i..]) {
      BeginsExact(s[i..]);
      NoBraceNoMatch(s[i..]);
    }
  }

  lemma NoBraceNoMatch(s: string)
    requires BraceFree(s)
    ensures MatchHere(s).None?
  {
    hide SplitInside;
    assert forall n :: 0 < n <= |s| ==> s[..n][0] == s[0] != '{';
    assert Repeat('{', 2)[0] == Repeat('{', 1)[0] == '{';
  }

  /** When neither the values nor the text outside the placeholders holds an opening brace, supported names
      with values are enough for success. */
  lemma RenderSucceeds(body: string, context: Context)
    requires LiteralsBraceFree(Scan(body)) && forall name :: name in SUPPORTED_VARIABLES ==>
        BraceFree(context.Value(name))
    ensures Render(body, context).Ok() <==> AllSupported(Names(Scan(body))) && AllKnown(Names(Scan(body)), context)
  {
    hide Scan, Names, Substitute, Render, TokenFree, Context.Value, BraceFree, LiteralsBraceFree;
    RenderExact(body, context);
    var value := (name: string) => context.Value(name);
    if AllSupported(Names(Scan(body))) {
      SubstituteBraceFree(Scan(body), value);
      BraceFreeIsTokenFree(Substitute(Scan(body), value));
    }
  }

  lemma TokenFreeConcat(head: string, rest: string)
    ensures TokenFree(head + rest) <==>
              (forall i :: 0 <= i < |head| ==> !BeginsToken((head + rest)[i..])) && TokenFree(rest)
  {
    hide BeginsToken;
    var s := head + rest;
    assert forall i :: 0 <= i <= |rest| ==> s[|head| + i..] == rest[i..];
    if TokenFree(s) {
      forall i | 0 <= i <= |rest| ensures !BeginsToken(rest[i..]) {
        assert !BeginsToken(s[|head| + i..]);
      }
    }
    if TokenFree(rest) && forall i :: 0 <= i < |head| ==> !BeginsToken(s[i..]) {
      forall i | 0 <= i <= |s| ensures !BeginsToken(s[i..]) {
        if i >= |head| {
          assert s[i..] == rest[i - |head|..];
        }
      }
    }
  }

  lemma BeginsWithBrace(s: string)
    requires BeginsToken(s)
    ensures s != "" && s[0] == '{'
  {
    BeginsExact(s);
    hide SplitInside, BeginsToken;
    assert Repeat('{', 2)[0] == Repeat('{', 1)[0] == '{';
    assert forall n :: 0 < n <= |s| ==> s[..n][0] == s[0];
  }

  /** No literal opening brace begins a placeholder together with what the values make of the pieces after it. */
  ghost predicate BracesHarmless(pieces: seq<Piece>, value: string -> string) {
    forall k :: 0 <= k < |pieces| && pieces[k] == Literal('{') ==> !BeginsToken(Substitute(pieces[k..], value))
  }

  lemma {:induction false} TokenFreeByLiterals(pieces: seq<Piece>, value: string -> string)
    requires forall name :: name in Names(pieces) ==> BraceFree(value(name))
    ensures TokenFree(Substitute(pieces, value)) <==> BracesHarmless(pieces, value)
  {
    if pieces == [] {
      BraceFreeIsTokenFree("");
    } else {
      var rest := pieces[1..];
      var head := Replaced(pieces[0], value);
      var s := Substitute(pieces, value);
      assert s == head + Substitute(rest, value) && s[0..] == s;
      TokenFreeByLiterals(rest, value);
      TokenFreeConcat(head, Substitute(rest, value));
      hide BeginsToken, TokenFree;
      forall i | 0 <= i < |head| && BeginsToken(s[i..]) ensures i == 0 && pieces[0] == Literal('{') {
        BeginsWithBrace(s[i..]);
        assert s[i..][0] == s[i] == head[i];
      }
      HarmlessStep(pieces, value);
    }
  }

  lemma HarmlessStep(pieces: seq<Piece>, value: string -> string)
    requires pieces != []
    ensures BracesHarmless(pieces, value) <==>
              && (pieces[0] == Literal('{') ==> !BeginsToken(Substitute(pieces, value)))
              && BracesHarmless(pieces[1..], value)
  {
    hide BeginsToken, Substitute;
    var rest := pieces[1..];
    assert pieces[0..] == pieces;
    assert forall k :: 0 <= k < |rest| ==> rest[k] == pieces[k + 1] && rest[k..] == pieces[k + 1..];
    if BracesHarmless(rest, value) {
      forall k | 0 < k < |pieces| && pieces[k] == Literal('{') ensures !BeginsToken(Substitute(pieces[k..], value)) {
        assert rest[k - 1..] == pieces[k..] && rest[k - 1] == Literal('{');
      }
    }
    if BracesHarmless(pieces, value) {
      forall k | 0 <= k < |rest| && rest[k] == Literal('{') ensures !BeginsToken(Substitute(rest[k..], value)) {
        assert pieces[k + 1] == Literal('{');
      }
    }
  }

  /** For values without an opening brace, success exactly: the names are supported and have values, and no literal
      opening brace of the body begins a placeholder with what follows it. */
  lemma RenderSucceedsExactly(body: string, context: Context)
    requires forall name :: name in SUPPORTED_VARIABLES ==> BraceFree(context.Value(name))
    ensures Render(body, context).Ok() <==>
              && AllSupported(Names(Scan(body))) && AllKnown(Names(Scan(body)), context)
              && BracesHarmless(Scan(body), name => context.Value(name))
  {
    hide Scan, Names, Substitute, Render, TokenFree, Context.Value, BraceFree, BracesHarmless;
    RenderExact(body, context);
    if AllSupported(Names(Scan(body))) {
      TokenFreeByLiterals(Scan(body), name => context.Value(name));
    }
  }

  // -----------------------------------------------------------------------
  // What a literal brace may do, by the pieces behind it

  predicate NoBraces(s: string) {
    '{' !in s && '}' !in s
  }

  function Literals(c: char, n: nat): (pieces: seq<Piece>)
    ensures |pieces| == n && forall i :: 0 <= i < n ==> pieces[i] == Literal(c)
  {
    if n == 0 then [] else [Literal(c)] + Literals(c, n - 1)
  }

  /** The pieces begin with so many literal braces, `m` pieces that together read as these parts, and as many literal
      closing braces. */
  ghost predicate Encloses(pieces: seq<Piece>, value: string -> string, braces: nat, m: nat, p: Parts) {
    var to := braces + m;
    && to + braces <= |pieces|
    && pieces[..braces] == Literals('{', braces) && pieces[to..to + braces] == Literals('}', braces)
    && Substitute(pieces[braces..to], value) == p.Inside()
  }

  /** One or two literal braces enclose pieces that read as a name between blanks. */
  ghost predicate FormsPlaceholder(pieces: seq<Piece>, value: string -> string) {
    exists braces: nat, m: nat, p: Parts ::
      1 <= braces <= 2 && p.WellFormed() && Encloses(pieces, value, braces, m, p)
  }

  /** Every name has a value, and the value holds no brace. */
  ghost predicate PlainValues(pieces: seq<Piece>, value: string -> string) {
    forall name :: name in Names(pieces) ==> value(name) != "" && NoBraces(value(name))
  }

  lemma JoinsOn(x: string, y: string, z: string)
    ensures x + (y + z) == x + y + z
  {
  }

  lemma {:induction false} SubstituteConcat(a: seq<Piece>, b: seq<Piece>, value: string -> string)
    ensures Substitute(a + b, value) == Substitute(a, value) + Substitute(b, value)
  {
    hide Replaced;
    if a == [] {
      assert a + b == b;
    } else {
      SubstituteConcat(a[1..], b, value);
      assert (a + b)[1..] == a[1..] + b && (a + b)[0] == a[0];
      JoinsOn(Replaced(a[0], value), Substitute(a[1..], value), Substitute(b, value));
    }
  }

  lemma {:induction false} SubstituteLiterals(c: char, n: nat, value: string -> string)
    ensures Substitute(Literals(c, n), value) == Repeat(c, n)
  {
    if n > 0 {
      SubstituteLiterals(c, n - 1, value);
      assert Literals(c, n)[1..] == Literals(c, n - 1);
    }
  }

  /** A brace at the beginning of the result is a literal brace of the body. */
  lemma {:induction false} LeadingBraces(pieces: seq<Piece>, value: string -> string, c: char, n: nat, rest: string)
    requires PlainValues(pieces, value) && c in {'{', '}'} && Substitute(pieces, value) == Repeat(c, n) + rest
    ensures n <= |pieces| && pieces[..n] == Literals(c, n) && Substitute(pieces[n..], value) == rest
    ensures PlainValues(pieces[n..], value)
    decreases n
  {
    if n == 0 {
      assert Repeat(c, 0) + rest == rest && pieces[0..] == pieces;
    } else {
      var text := Repeat(c, n - 1) + rest;
      assert Repeat(c, n) + rest == [c] + text;
      assert Substitute(pieces, value)[0] == c;
      assert pieces[0] == Literal(c);
      assert Substitute(pieces, value)[1..] == Substitute(pieces[1..], value);
      LeadingBraces(pieces[1..], value, c, n - 1, text[|text| - |rest|..]);
      assert pieces[..n] == [pieces[0]] + pieces[1..][..n - 1] && pieces[n..] == pieces[1..][n - 1..];
    }
  }

  /** What comes first in a text does not reach beyond the first closing brace. */
  lemma HeadInside(head: string, tail: string, inside: string, rest: string)
    requires head + tail == inside + rest && inside != "" && rest != "" && rest[0] == '}' && '}' !in inside
    requires |head| <= 1 || '}' !in head
    ensures |head| <= |inside| && inside == head + inside[|head|..] && tail == inside[|head|..] + rest
  {
    var text := head + tail;
    assert text[|inside|] == rest[0];
    assert text[..|head|] == head && text[|head|..] == tail;
    assert (inside + rest)[..|head|] == inside[..|head|] && (inside + rest)[|head|..] == inside[|head|..] + rest;
  }

  /** A part of the result without a brace, up to a closing brace, is what some of the pieces make. */
  lemma {:induction false} SplitAtBrace(pieces: seq<Piece>, value: string -> string, inside: string, rest: string)
    returns (m: nat)
    requires PlainValues(pieces, value) && Substitute(pieces, value) == inside + rest
    requires NoBraces(inside) && rest != "" && rest[0] == '}'
    ensures m <= |pieces| && Substitute(pieces[..m], value) == inside && Substitute(pieces[m..], value) == rest
    ensures PlainValues(pieces[m..], value)
    decreases |pieces|
  {
    if inside == "" {
      assert inside + rest == rest && pieces[0..] == pieces;
      m := 0;
    } else {
      var head := Replaced(pieces[0], value);
      HeadInside(head, Substitute(pieces[1..], value), inside, rest);
      hide PlainValues;
      var k := SplitAtBrace(pieces[1..], value, inside[|head|..], rest);
      m := k + 1;
      assert pieces[..m][1..] == pieces[1..][..k] && pieces[m..] == pieces[1..][k..];
    }
  }

  lemma FourParts(pieces: seq<Piece>, x: nat, y: nat, z: nat)
    requires x <= y <= z <= |pieces|
    ensures pieces == pieces[..x] + (pieces[x..y] + (pieces[y..z] + pieces[z..]))
  {
  }

  lemma SubstituteFour(a: seq<Piece>, b: seq<Piece>, c: seq<Piece>, d: seq<Piece>, value: string -> string)
    ensures Substitute(a + (b + (c + d)), value)
         == Substitute(a, value) + (Substitute(b, value) + (Substitute(c, value) + Substitute(d, value)))
  {
    SubstituteConcat(a, b + (c + d), value);
    SubstituteConcat(b, c + d, value);
    SubstituteConcat(c, d, value);
  }

  lemma RawApart(braces: nat, p: Parts, rest: string)
    ensures Repeat('{', braces) + (p.Inside() + (Repeat('}', braces) + rest)) == Raw(braces, p) + rest
  {
  }

  lemma EnclosedText(pieces: seq<Piece>, value: string -> string, braces: nat, m: nat, p: Parts)
    requires Encloses(pieces, value, braces, m, p)
    ensures var text := Substitute(pieces, value);
            |Raw(braces, p)| <= |text| && text[..|Raw(braces, p)|] == Raw(braces, p)
  {
    hide Substitute, Literals, Repeat, Raw;
    var to := braces + m;
    var rest := pieces[to + braces..];
    FourParts(pieces, braces, to, to + braces);
    SubstituteFour(pieces[..braces], pieces[braces..to], pieces[to..to + braces], rest, value);
    SubstituteLiterals('{', braces, value);
    SubstituteLiterals('}', braces, value);
    RawApart(braces, p, Substitute(rest, value));
  }

  /** When values are plain, a placeholder begins in the result exactly where the pieces form one. */
  lemma PlaceholderPieces(pieces: seq<Piece>, value: string -> string)
    requires PlainValues(pieces, value)
    ensures BeginsToken(Substitute(pieces, value)) <==> FormsPlaceholder(pieces, value)
  {
    hide Encloses, Raw, PlainValues, Substitute;
    var text := Substitute(pieces, value);
    if FormsPlaceholder(pieces, value) {
      var braces: nat, m: nat, p: Parts :|
        1 <= braces <= 2 && p.WellFormed() && Encloses(pieces, value, braces, m, p);
      EnclosedText(pieces, value, braces, m, p);
      assert IsToken(text[..|Raw(braces, p)|], p.name);
    }
    if BeginsToken(text) {
      var length: nat, name: string :| length <= |text| && IsToken(text[..length], name);
      var braces: nat, p: Parts :| 1 <= braces <= 2 && p.WellFormed() && p.name == name
          && text[..length] == Raw(braces, p);
      assert text == text[..length] + text[length..];
      var m := EnclosedPieces(pieces, value, braces, p, text[length..]);
    }
  }

  lemma EnclosedPieces(pieces: seq<Piece>, value: string -> string, braces: nat, p: Parts, rest: string)
    returns (m: nat)
    requires PlainValues(pieces, value) && 1 <= braces && p.WellFormed()
    requires Substitute(pieces, value) == Raw(braces, p) + rest
    ensures Encloses(pieces, value, braces, m, p)
  {
    var close := Repeat('}', braces) + rest;
    assert close[0] == '}';
    InsideHasNoBrace(p);
    RawApart(braces, p, rest);
    hide PlainValues, Substitute, Raw, Repeat, Literals, IsName, Blank, NoBraces, Parts.Inside;
    LeadingBraces(pieces, value, '{', braces, p.Inside() + close);
    m := SplitAtBrace(pieces[braces..], value, p.Inside(), close);
    LeadingBraces(pieces[braces..][m..], value, '}', braces, rest);
    CutBehind(pieces, braces, m);
  }

  lemma CutBehind(pieces: seq<Piece>, n: nat, m: nat)
    requires n + m + n <= |pieces|
    ensures pieces[n..][..m] == pieces[n..n + m] && pieces[n..][m..][..n] == pieces[n + m..n + m + n]
  {
  }

  lemma InsideHasNoBrace(p: Parts)
    requires p.WellFormed()
    ensures NoBraces(p.Inside())
  {
  }

  lemma {:induction false} PlainSuffix(pieces: seq<Piece>, value: string -> string, k: nat)
    requires PlainValues(pieces, value) && k <= |pieces|
    ensures PlainValues(pieces[k..], value)
  {
    if k == 0 {
      assert pieces[0..] == pieces;
    } else {
      assert PlainValues(pieces[1..], value);
      PlainSuffix(pieces[1..], value, k - 1);
      assert pieces[1..][k - 1..] == pieces[k..];
    }
  }

  lemma HarmlessByPieces(pieces: seq<Piece>, value: string -> string)
    requires PlainValues(pieces, value)
    ensures BracesHarmless(pieces, value)
       <==> forall k :: 0 <= k < |pieces| ==> !FormsPlaceholder(pieces[k..], value)
  {
    hide PlainValues, Substitute, BeginsToken;
    forall k | 0 <= k < |pieces|
      ensures BeginsToken(Substitute(pieces[k..], value)) <==> FormsPlaceholder(pieces[k..], value)
      ensures FormsPlaceholder(pieces[k..], value) ==> pieces[k] == Literal('{')
    {
      PlainSuffix(pieces, value, k);
      PlaceholderPieces(pieces[k..], value);
      if FormsPlaceholder(pieces[k..], value) {
        FormedBeginsWithBrace(pieces[k..], value);
      }
    }
  }

  lemma FormedBeginsWithBrace(pieces: seq<Piece>, value: string -> string)
    requires FormsPlaceholder(pieces, value)
    ensures pieces != [] && pieces[0] == Literal('{')
  {
    hide Substitute;
    var braces: nat, m: nat, p: Parts :| 1 <= braces <= 2 && p.WellFormed() && Encloses(pieces, value, braces, m, p);
    assert pieces[..braces][0] == pieces[0];
  }

  /** For values without braces, success exactly, by the pieces of the body: the names are supported and have values,
      and nowhere do one or two literal braces enclose pieces that read as a name between blanks. */
  lemma RenderSucceedsByPieces(body: string, context: Context)
    requires forall name :: name in SUPPORTED_VARIABLES ==> NoBraces(context.Value(name))
    ensures var pieces := Scan(body);
            Render(body, context).Ok() <==>
              && AllSupported(Names(pieces)) && AllKnown(Names(pieces), context)
              && forall k :: 0 <= k < |pieces| ==> !FormsPlaceholder(pieces[k..], name => context.Value(name))
  {
    hide Scan, Names, Substitute, Render, Context.Value, BracesHarmless, FormsPlaceholder;
    RenderSucceedsExactly(body, context);
    if AllSupported(Names(Scan(body))) && AllKnown(Names(Scan(body)), context) {
      HarmlessByPieces(Scan(body), name => context.Value(name));
    }
  }

  // -----------------------------------------------------------------------
  // A template that fails

  /** A brace in front of a placeholder stays a literal, however the text goes on. */
  lemma BraceBeforeBraces(s: string)
    requires 2 <= |s| && s[0] == '{' && s[1] == '{'
    ensures MatchBraces(s, 1).None?
    ensures 3 <= |s| && s[2] == '{' ==> MatchBraces(s, 2).None?
  {
    hide Leads;
    assert s[1..][0] == '{' && !Text.IsSpace('{') && !NamePart('{');
    assert 3 <= |s| ==> s[2..][0] == s[2];
  }

  lemma WrappedScan(p: Parts)
    requires p.WellFormed()
    ensures Scan("{" + (Raw(2, p) + "}")) == [Literal('{'), Token(Raw(2, p), p.name), Literal('}')]
  {
    hide MatchBraces, IsToken;
    var inner := Raw(2, p) + "}";
    var s := "{" + inner;
    assert s[1] == '{' && s[2] == '{' by { assert inner[0] == Repeat('{', 2)[0] && inner[1] == Repeat('{', 2)[1]; }
    BraceBeforeBraces(s);
    assert s[1..] == inner;
    TokenMatches(2, p, "}");
    assert inner[..|Raw(2, p)|] == Raw(2, p) && inner[|Raw(2, p)|..] == "}";
    NoBraceNoMatch("}");
    assert Scan("}") == [Literal('}')] + Scan("}"[1..]);
    assert Scan(inner) == [Token(Raw(2, p), p.name)] + Scan("}");
    assert Scan(s) == [Literal('{')] + Scan(inner);
  }

  /** Values without braces alone are not enough: one brace too many around a placeholder makes a new
      placeholder of every value that is itself a name, as in "{{{name}}}". */
  lemma ExtraBraceFails(p: Parts, context: Context)
    requires p.WellFormed() && p.name in SUPPORTED_VARIABLES && IsName(context.Value(p.name))
    ensures var r := Render("{" + (Raw(2, p) + "}"), context);
            r.body == "{" + context.Value(p.name) + "}" && r.reason == Some(UnresolvedToken)
  {
    var body, v := "{" + (Raw(2, p) + "}"), context.Value(p.name);
    assert v != "";
    hide Scan, Names, Substitute, TokenFree, Raw, IsName, Context.Value, Render;
    WrappedScan(p);
    RenderExact(body, context);
    var value := (name: string) => context.Value(name);
    WrappedPieces(Raw(2, p), p.name, value);
    BracedNameIsToken(v, Substitute(Scan(body), value));
  }

  lemma WrappedPieces(raw: string, name: string, value: string -> string)
    ensures Names([Literal('{'), Token(raw, name), Literal('}')]) == [name]
    ensures Substitute([Literal('{'), Token(raw, name), Literal('}')], value) == "{" + (value(name) + ("}" + ""))
  {
    var pieces := [Literal('{'), Token(raw, name), Literal('}')];
    assert pieces[1..] == [Token(raw, name), Literal('}')] && pieces[1..][1..] == [Literal('}')]
        && pieces[1..][1..][1..] == [];
    assert Names(pieces[1..][1..]) == [] && Names(pieces[1..]) == [name];
    assert Substitute(pieces[1..][1..], value) == "}" + ""
        && Substitute(pieces[1..], value) == value(name) + ("}" + "");
  }

  lemma BracedNameIsToken(v: string, rendered: string)
    requires IsName(v) && rendered == "{" + (v + ("}" + ""))
    ensures !TokenFree(rendered) && rendered == "{" + v + "}"
  {
    var p := Parts("", v, "");
    assert Repeat('{', 1) == "{" && Repeat('}', 1) == "}";
    assert rendered == Raw(1, p);
    assert rendered[0..] == rendered == rendered[..|rendered|];
    assert IsToken(rendered[..|rendered|], v);
    assert BeginsToken(rendered[0..]);
  }
}
