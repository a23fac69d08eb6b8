/** The account's protection lists: normalising user names, parsing and printing the snapshot of a run, and
    the two membership checks. */
module ProtectionLists {
  import opened Options
  import Text
  import FollowDecision

  // -----------------------------------------------------------------------
  // User names

  predicate NameChar(c: char) {
    'a' <= c <= 'z' || '0' <= c <= '9' || c == '.' || c == '_'
  }

  predicate ValidName(s: string) {
    1 <= |s| <= 30 && forall i :: 0 <= i < |s| ==> NameChar(s[i])
  }

  /** One to thirty characters, each a small ASCII letter, a digit, a dot or an underscore. */
  lemma ValidNameExactly(s: string)
    ensures ValidName(s)
       <==> && s != "" && |s| < 31
            && forall i :: 0 <= i < |s| ==>
                 var n := s[i] as int; (96 < n < 123) || (47 < n < 58) || n == 46 || n == 95
  {
    forall i | 0 <= i < |s|
      ensures NameChar(s[i]) <==> var n := s[i] as int; (96 < n < 123) || (47 < n < 58) || n == 46 || n == 95
    {
    }
  }

  function Checked(s: string): string {
    if ValidName(s) then s else ""
  }

  function NormalizeUsername(s: string): (r: string)
    ensures r == "" || ValidName(r)
  {
    Checked(Text.Strip(Text.DropAts(Text.Lower(Text.Strip(s)))))
  }

  /** A valid name is left as it is by every step. */
  lemma ValidIsNormal(s: string)
    requires ValidName(s)
    ensures Text.Strip(s) == s && Text.Lower(s) == s && Text.DropAts(s) == s && NormalizeUsername(s) == s
  {
    assert NameChar(s[0]) && NameChar(s[|s| - 1]);
  }

  lemma NormalizeIdempotent(s: string)
    ensures NormalizeUsername(NormalizeUsername(s)) == NormalizeUsername(s)
  {
    var r := NormalizeUsername(s);
    hide NormalizeUsername;
    if r != "" {
      ValidIsNormal(r);
    } else {
      NormalizeEmpty();
    }
  }

  lemma NormalizeEmpty()
    ensures NormalizeUsername("") == ""
  {
  }

  predicate Blank(s: string) {
    forall i :: 0 <= i < |s| ==> Text.IsSpace(s[i])
  }

  lemma {:induction false} StripStartBlank(w: string, s: string)
    requires Blank(w)
    ensures Text.StripStart(w + s) == Text.StripStart(s)
  {
    if w == "" {
      assert w + s == s;
    } else {
      StripStartBlank(w[1..], s);
      assert (w + s)[1..] == w[1..] + s;
    }
  }

  lemma {:induction false} StripEndBlank(s: string, w: string)
    requires Blank(w)
    ensures Text.StripEnd(s + w) == Text.StripEnd(s)
  {
    if w == "" {
      assert s + w == s;
    } else {
      StripEndBlank(s, w[..|w| - 1]);
      assert (s + w)[..|s + w| - 1] == s + w[..|w| - 1];
    }
  }

  /** Stripping the start first or the end first is the same. */
  lemma {:induction false} StripStartAppend(s: string, w: string)
    requires Blank(w)
    ensures Text.StripEnd(Text.StripStart(s + w)) == Text.StripEnd(Text.StripStart(s))
  {
    if s == "" {
      assert s + w == w == w + "";
      StripStartBlank(w, "");
    } else if Text.IsSpace(s[0]) {
      StripStartAppend(s[1..], w);
      assert (s + w)[1..] == s[1..] + w;
    } else {
      StripEndBlank(s, w);
    }
  }

  lemma StripAround(before: string, s: string, after: string)
    requires Blank(before) && Blank(after)
    ensures Text.Strip(before + s + after) == Text.Strip(s)
  {
    assert before + s + after == before + (s + after);
    StripStartBlank(before, s + after);
    StripStartAppend(s, after);
  }

  lemma LowerConcatSlice(s: string, i: nat, j: nat)
    requires i <= j <= |s|
    ensures Text.Lower(s[i..j]) == Text.Lower(s)[i..j]
  {
  }

  lemma LowerSpace(c: char)
    ensures Text.IsSpace(Text.LowerChar(c)) == Text.IsSpace(c)
  {
  }

  lemma {:induction false} StripStartLower(s: string)
    ensures Text.StripStart(Text.Lower(s)) == Text.Lower(Text.StripStart(s))
  {
    if s != "" {
      LowerSpace(s[0]);
      StripStartLower(s[1..]);
      LowerConcatSlice(s, 1, |s|);
      assert s[1..] == s[1..|s|] && Text.Lower(s)[1..] == Text.Lower(s)[1..|s|];
    }
  }

  lemma {:induction false} StripEndLower(s: string)
    ensures Text.StripEnd(Text.Lower(s)) == Text.Lower(Text.StripEnd(s))
  {
    if s != "" {
      LowerSpace(s[|s| - 1]);
      StripEndLower(s[..|s| - 1]);
      LowerConcatSlice(s, 0, |s| - 1);
      assert s[..|s| - 1] == s[0..|s| - 1] && Text.Lower(s)[..|s| - 1] == Text.Lower(s)[0..|s| - 1];
    }
  }

  lemma StripLower(s: string)
    ensures Text.Strip(Text.Lower(s)) == Text.Lower(Text.Strip(s))
  {
    StripStartLower(s);
    StripEndLower(Text.StripStart(s));
  }

  /** Neither surrounding blanks nor the case of letters matters, whatever the name. */
  lemma BlanksAndCaseIgnored(s: string, t: string, before: string, after: string)
    requires Blank(before) && Blank(after) && Text.Lower(t) == Text.Lower(s)
    ensures NormalizeUsername(before + t + after) == NormalizeUsername(s)
  {
    StripAround(before, t, after);
    StripLower(s);
    StripLower(t);
    hide Text.Strip, Text.Lower, Text.DropAts, Checked;
  }

  lemma {:induction false} StripEndTail(s: string)
    ensures var e := Text.StripEnd(s); |e| <= |s| && e == s[..|e|] && Blank(s[|e|..])
  {
    if s != "" && Text.IsSpace(s[|s| - 1]) {
      StripEndTail(s[..|s| - 1]);
      var e := Text.StripEnd(s);
      assert s[|e|..] == s[..|s| - 1][|e|..] + [s[|s| - 1]];
    }
  }

  lemma {:induction false} StripEndCons(c: char, s: string)
    requires !Text.IsSpace(c)
    ensures Text.StripEnd([c] + s) == [c] + Text.StripEnd(s)
  {
    if s == "" || !Text.IsSpace(s[|s| - 1]) {
    } else {
      StripEndCons(c, s[..|s| - 1]);
      assert ([c] + s)[..|[c] + s| - 1] == [c] + s[..|s| - 1];
    }
  }

  lemma StripOfStripEnd(s: string)
    ensures Text.Strip(Text.StripEnd(s)) == Text.Strip(s)
  {
    StripEndTail(s);
    var e := Text.StripEnd(s);
    StripStartAppend(e, s[|e|..]);
    assert s == e + s[|e|..];
  }

  lemma LowerCons(c: char, s: string)
    ensures Text.Lower([c] + s) == [Text.LowerChar(c)] + Text.Lower(s)
  {
    assert ([c] + s)[1..] == s;
  }

  /** What is left of "@" and a name after the first three steps. */
  lemma AfterAt(s: string)
    ensures Text.DropAts(Text.Lower(Text.Strip("@" + s))) == Text.DropAts(Text.Lower(Text.StripEnd(s)))
  {
    StripEndCons('@', s);
    LowerCons('@', Text.StripEnd(s));
    assert ("@" + Text.Lower(Text.StripEnd(s)))[1..] == Text.Lower(Text.StripEnd(s));
  }

  lemma NoAtToDrop(x: string)
    requires x == "" || x[0] != '@'
    ensures Text.DropAts(Text.Lower(x)) == Text.Lower(x)
  {
  }

  lemma AtIsInvalid(x: string)
    requires "@" <= x
    ensures Checked(Text.Lower(x)) == ""
  {
    assert x[0] == '@' && Text.Lower(x)[0] == '@';
  }

  /** A leading "@" does not matter, except in one case: when it comes before blanks and another "@" of a
      name that is valid without it, which makes the name invalid. */
  lemma LeadingAt(s: string)
    ensures NormalizeUsername("@" + s) == NormalizeUsername(s) || NormalizeUsername("@" + s) == ""
    ensures NormalizeUsername("@" + s) == NormalizeUsername(s) <==>
              !(s != "" && Text.IsSpace(s[0]) && "@" <= Text.Strip(s) && NormalizeUsername(s) != "")
  {
    AfterAt(s);
    if s != "" && Text.IsSpace(s[0]) {
      var e, x := Text.StripEnd(s), Text.Strip(s);
      StripOfStripEnd(s);
      FollowDecision.StripEndIdempotent(s);
      NoAtToDrop(e);
      StripLower(e);
      assert NormalizeUsername("@" + s) == Checked(Text.Lower(x));
      if "@" <= x {
        AtIsInvalid(x);
      } else {
        NoAtToDrop(x);
        StripLower(x);
        FollowDecision.StripIdempotent(s);
      }
    }
  }

  /** For a string that stays a valid name, a leading "@" never matters. */
  lemma LeadingAtIgnored(s: string)
    requires NormalizeUsername("@" + s) != ""
    ensures NormalizeUsername("@" + s) == NormalizeUsername(s)
  {
    LeadingAt(s);
  }

  // -----------------------------------------------------------------------
  // Parsing

  /** A version as it stands in a payload. */
  datatype RawVersion = NoVersion | Version(number: int) | BadVersion

  /** One kind of list: `None` for anything that is no list. */
  datatype RawKind = RawKind(items: Option<seq<string>>, version: RawVersion)

  /** A payload dictionary; `lists` is `None` when the lists or the versions are no dictionaries. */
  datatype Payload = Payload(ok: bool, account: string, source: string, loadedAt: string, lists: Option<(RawKind,
      RawKind)>)

  datatype KindOfList = Blacklist | Whitelist

  datatype Error =
    | NotOk
    | AccountMismatch
    | SourceInvalid
    | PayloadInvalid
    | ListInvalid(kind: KindOfList)
    | UsernameInvalid(kind: KindOfList)
    | VersionInvalid(kind: KindOfList)
    | LoadedAtMissing

  datatype Result<T> = Ok(value: T) | Err(error: Error)

  datatype Snapshot = Snapshot(
    account: string, blacklist: set<string>, whitelist: set<string>, blackVersion: nat, whiteVersion: nat,
        loadedAt: string)

  const SOURCE := "account_protection_list_entries"

  function NamesOf(items: seq<string>): set<string> {
    set i | 0 <= i < |items| :: NormalizeUsername(items[i])
  }

  predicate AllNames(items: seq<string>) {
    forall i :: 0 <= i < |items| ==> NormalizeUsername(items[i]) != ""
  }

  function ParseVersion(v: RawVersion): Option<nat> {
    match v
    case NoVersion => Some(0)
    case Version(n) => if n < 0 then None else Some(n)
    case BadVersion => None
  }

  function ParseKind(raw: RawKind, kind: KindOfList): Result<(set<string>, nat)> {
    if raw.items.None? then Err(ListInvalid(kind))
    else if !AllNames(raw.items.value) then Err(UsernameInvalid(kind))
    else if ParseVersion(raw.version).None? then Err(VersionInvalid(kind))
    else Ok((NamesOf(raw.items.value), ParseVersion(raw.version).value))
  }

  predicate RightAccount(account: string, expected: Option<string>) {
    account != "" && (expected.GetOr("") == "" || account == Text.Strip(expected.value))
  }

  /** `parse_snapshot` */
  function Parse(p: Payload, expected: Option<string>): Result<Snapshot> {
    if !p.ok then Err(NotOk)
    else if !RightAccount(Text.Strip(p.account), expected) then Err(AccountMismatch)
    else if p.source != SOURCE then Err(SourceInvalid)
    else if p.lists.None? then Err(PayloadInvalid)
    else
      var black := ParseKind(p.lists.value.0, Blacklist);
      var white := ParseKind(p.lists.value.1, Whitelist);
      if black.Err? then Err(black.error)
      else if white.Err? then Err(white.error)
      else if Text.Strip(p.loadedAt) == "" then Err(LoadedAtMissing)
      else Ok(Snapshot(Text.Strip(p.account), black.value.0, white.value.0, black.value.1, white.value.1,
          Text.Strip(p.loadedAt)))
  }

  /** The payload is of this account, where one is expected. */
  predicate ForAccount(p: Payload, expected: Option<string>) {
    && Text.Strip(p.account) != ""
    && (expected.Some? && expected.value != "" ==> Text.Strip(p.account) == Text.Strip(expected.value))
  }

  /** What one kind of list has to be: a list of spellings of valid names, with no version or one that is not
      negative. */
  ghost predicate ReadsAs(raw: RawKind, names: set<string>, version: int) {
    && raw.items.Some?
    && (forall i :: 0 <= i < |raw.items.value| ==> NormalizeUsername(raw.items.value[i]) != "")
    && (forall name :: name in names <==>
          exists i :: 0 <= i < |raw.items.value| && NormalizeUsername(raw.items.value[i]) == name)
    && (raw.version == Version(version) || (raw.version == NoVersion && version == 0)) && version >= 0
  }

  lemma KindExactly(raw: RawKind, kind: KindOfList, names: set<string>, version: nat)
    ensures ParseKind(raw, kind) == Ok((names, version)) <==> ReadsAs(raw, names, version)
  {
    hide NormalizeUsername;
    if raw.items.Some? && ReadsAs(raw, names, version) {
      assert NamesOf(raw.items.value) == names;
    }
  }

  /** Which payloads are parsed to which snapshot, by their fields: only an answer that is ok, of the expected account
      and of the one source, with both lists readable and a time of loading. */
  lemma ParsesExactly(p: Payload, expected: Option<string>, s: Snapshot)
    ensures Parse(p, expected) == Ok(s)
       <==> && p.ok && ForAccount(p, expected) && p.source == "account_protection_list_entries"
            && p.lists.Some?
            && ReadsAs(p.lists.value.0, s.blacklist, s.blackVersion)
            && ReadsAs(p.lists.value.1, s.whitelist, s.whiteVersion)
            && Text.Strip(p.loadedAt) != ""
            && s.account == Text.Strip(p.account) && s.loadedAt == Text.Strip(p.loadedAt)
  {
    if p.lists.Some? {
      KindExactly(p.lists.value.0, Blacklist, s.blacklist, s.blackVersion);
      KindExactly(p.lists.value.1, Whitelist, s.whitelist, s.whiteVersion);
    }
    hide Text.Strip, ParseKind, ReadsAs;
  }

  /** The error of a payload that is refused, by what is wrong first. */
  lemma ParseErrorExactly(p: Payload, expected: Option<string>)
    ensures var r := Parse(p, expected);
            && (!p.ok ==> r == Err(NotOk))
            && (p.ok && !ForAccount(p, expected) ==> r == Err(AccountMismatch))
            && (p.ok && ForAccount(p, expected) ==>
                  if p.source != "account_protection_list_entries" then r == Err(SourceInvalid)
                  else if p.lists.None? then r == Err(PayloadInvalid)
                  else
                    var (black, white) := p.lists.value;
                    if !Readable(black) then r == Err(ErrorOf(black, Blacklist))
                    else if !Readable(white) then r == Err(ErrorOf(white, Whitelist))
                    else if Text.Strip(p.loadedAt) == "" then r == Err(LoadedAtMissing)
                    else r.Ok?)
  {
    hide Text.Strip, NormalizeUsername;
  }

  predicate Readable(raw: RawKind) {
    && raw.items.Some? && (forall i :: 0 <= i < |raw.items.value| ==> NormalizeUsername(raw.items.value[i]) != "")
    && (raw.version.Version? ==> raw.version.number >= 0) && !raw.version.BadVersion?
  }

  /** What is wrong with a list that is not readable. */
  function ErrorOf(raw: RawKind, kind: KindOfList): Error {
    if raw.items.None? then ListInvalid(kind)
    else if exists i :: 0 <= i < |raw.items.value| && NormalizeUsername(raw.items.value[i]) == "" then
      UsernameInvalid(kind)
    else VersionInvalid(kind)
  }

  method ParseKindOfList(raw: RawKind, kind: KindOfList) returns (r: Result<(set<string>, nat)>)
    ensures r == ParseKind(raw, kind)
  {
    hide NormalizeUsername;
    if raw.items.None? {
      return Err(ListInvalid(kind));
    }
    var items := raw.items.value;
    var normalized: set<string> := {};
    for i := 0 to |items|
      invariant forall k :: 0 <= k < i ==> NormalizeUsername(items[k]) != ""
      invariant normalized == set k | 0 <= k < i :: NormalizeUsername(items[k])
    {
      var username := NormalizeUsername(items[i]);
      if username == "" {
        return Err(UsernameInvalid(kind));
      }
      normalized := normalized + {username};
    }
    var version := ParseVersion(raw.version);
    if version.None? {
      return Err(VersionInvalid(kind));
    }
    return Ok((normalized, version.value));
  }

  method ParseSnapshot(p: Payload, expected: Option<string>) returns (r: Result<Snapshot>)
    ensures r == Parse(p, expected)
  {
    hide Text.Strip, ParseKind, RightAccount;
    if !p.ok {
      return Err(NotOk);
    }
    var account := Text.Strip(p.account);
    if !RightAccount(account, expected) {
      return Err(AccountMismatch);
    }
    if p.source != SOURCE {
      return Err(SourceInvalid);
    }
    if p.lists.None? {
      return Err(PayloadInvalid);
    }
    var black := ParseKindOfList(p.lists.value.0, Blacklist);
    if black.Err? {
      return Err(black.error);
    }
    var white := ParseKindOfList(p.lists.value.1, Whitelist);
    if white.Err? {
      return Err(white.error);
    }
    var loadedAt := Text.Strip(p.loadedAt);
    if loadedAt == "" {
      return Err(LoadedAtMissing);
    }
    return Ok(Snapshot(account, black.value.0, white.value.0, black.value.1, white.value.1, loadedAt));
  }

  // -----------------------------------------------------------------------
  // Printing

  /** The order of strings, character by character. */
  predicate Less(a: string, b: string) {
    b != "" && (a == "" || a[0] < b[0] || (a[0] == b[0] && Less(a[1..], b[1..])))
  }

  predicate Ascending(s: seq<string>) {
    forall i, j :: 0 <= i < j < |s| ==> Less(s[i], s[j])
  }

  predicate SortedOf(s: seq<string>, names: set<string>) {
    Ascending(s) && (forall name :: name in s ==> name in names) && (forall name :: name in names ==> name in s)
  }

  /** `as_payload`, as a relation; `PayloadUnique` says that it is a function. */
  predicate IsPayloadOf(p: Payload, s: Snapshot) {
    && p.ok && p.account == s.account && p.source == SOURCE && p.loadedAt == s.loadedAt
    && p.lists.Some?
    && p.lists.value.0.items.Some? && SortedOf(p.lists.value.0.items.value, s.blacklist)
    && p.lists.value.1.items.Some? && SortedOf(p.lists.value.1.items.value, s.whitelist)
    && p.lists.value.0.version == Version(s.blackVersion) && p.lists.value.1.version == Version(s.whiteVersion)
  }

  lemma {:induction false} LessTotal(a: string, b: string)
    ensures Less(a, b) || Less(b, a) || a == b
    ensures Less(a, b) ==> !Less(b, a) && a != b
  {
    if a != "" && b != "" {
      LessTotal(a[1..], b[1..]);
      assert a == [a[0]] + a[1..] && b == [b[0]] + b[1..];
    }
  }

  lemma {:induction false} LessTransitive(a: string, b: string, c: string)
    requires Less(a, b) && Less(b, c)
    ensures Less(a, c)
  {
    if a != "" && a[0] == b[0] && b[0] == c[0] {
      LessTransitive(a[1..], b[1..], c[1..]);
    }
  }

  method Smallest(names: set<string>) returns (least: string)
    requires names != {}
    ensures least in names && forall name :: name in names && name != least ==> Less(least, name)
  {
    hide Less;
    least :| least in names;
    var rest := names - {least};
    while rest != {}
      invariant rest <= names && least in names
      invariant forall name :: name in names && name !in rest && name != least ==> Less(least, name)
      decreases rest
    {
      var name :| name in rest;
      LessTotal(least, name);
      if Less(name, least) {
        forall other | other in names && other !in rest && other != least ensures Less(name, other) {
          LessTransitive(name, least, other);
        }
        least := name;
      }
      rest := rest - {name};
    }
  }

  method Sorted(names: set<string>) returns (s: seq<string>)
    ensures SortedOf(s, names)
  {
    hide Less;
    s := [];
    var rest := names;
    while rest != {}
      invariant rest <= names && Ascending(s)
      invariant forall name :: name in names <==> name in s || name in rest
      invariant forall i, name :: 0 <= i < |s| && name in rest ==> Less(s[i], name)
      decreases rest
    {
      var least := Smallest(rest);
      rest := rest - {least};
      s := s + [least];
    }
  }

  method AsPayload(s: Snapshot) returns (p: Payload)
    ensures IsPayloadOf(p, s)
  {
    var black := Sorted(s.blacklist);
    var white := Sorted(s.whitelist);
    p := Payload(true, s.account, SOURCE, s.loadedAt,
                 Some((RawKind(Some(black), Version(s.blackVersion)), RawKind(Some(white), Version(s.whiteVersion)))));
  }

  /** Two ascending lists of the same names are the same list. */
  lemma {:induction false} SortedUnique(a: seq<string>, b: seq<string>, names: set<string>)
    requires SortedOf(a, names) && SortedOf(b, names)
    ensures a == b
  {
    hide Less;
    SortedEmpty(a, names);
    SortedEmpty(b, names);
    if a != [] {
      LessTotal(a[0], b[0]);
      assert a[0] == b[0] by {
        FirstIsLeast(a, names, b[0]);
        FirstIsLeast(b, names, a[0]);
      }
      SortedTail(a, names);
      SortedTail(b, names);
      SortedUnique(a[1..], b[1..], names - {a[0]});
    }
  }

  lemma SortedEmpty(s: seq<string>, names: set<string>)
    requires SortedOf(s, names)
    ensures s == [] <==> names == {}
  {
    hide Less;
    if s != [] {
      assert s[0] in names;
    }
  }

  lemma FirstIsLeast(s: seq<string>, names: set<string>, name: string)
    requires SortedOf(s, names) && s != [] && name in names
    ensures s[0] == name || Less(s[0], name)
  {
    var i :| 0 <= i < |s| && s[i] == name;
  }

  lemma SortedTail(s: seq<string>, names: set<string>)
    requires SortedOf(s, names) && s != []
    ensures SortedOf(s[1..], names - {s[0]})
  {
    hide Less;
    forall i | 0 < i < |s| ensures s[i] != s[0] {
      assert Less(s[0], s[i]);
      LessTotal(s[0], s[i]);
    }
    assert s == [s[0]] + s[1..];
  }

  /** The printed payload is determined by the snapshot. */
  lemma PayloadUnique(p: Payload, q: Payload, s: Snapshot)
    requires IsPayloadOf(p, s) && IsPayloadOf(q, s)
    ensures p == q
  {
    hide SortedOf;
    SortedUnique(p.lists.value.0.items.value, q.lists.value.0.items.value, s.blacklist);
    SortedUnique(p.lists.value.1.items.value, q.lists.value.1.items.value, s.whitelist);
  }

  lemma NormalNames(items: seq<string>, names: set<string>)
    requires SortedOf(items, names) && forall name :: name in names ==> name != "" && NormalizeUsername(name) == name
    ensures AllNames(items) && NamesOf(items) == names
  {
    hide NormalizeUsername, Less;
    forall i | 0 <= i < |items| ensures items[i] in names { }
    forall name | name in names ensures name in NamesOf(items) {
      var i :| 0 <= i < |items| && items[i] == name;
    }
  }

  lemma ParsedNames(raw: RawKind, kind: KindOfList)
    requires ParseKind(raw, kind).Ok?
    ensures forall name :: name in ParseKind(raw, kind).value.0 ==> name != "" && NormalizeUsername(name) == name
  {
    hide NormalizeUsername;
    forall name | name in ParseKind(raw, kind).value.0 ensures name != "" && NormalizeUsername(name) == name {
      var i :| 0 <= i < |raw.items.value| && NormalizeUsername(raw.items.value[i]) == name;
      NormalizeIdempotent(raw.items.value[i]);
    }
  }

  /** Round trip: every snapshot that parsing returns is what parsing its printed payload returns. */
  lemma SnapshotRoundTrip(p: Payload, expected: Option<string>, q: Payload)
    requires Parse(p, expected).Ok? && IsPayloadOf(q, Parse(p, expected).value)
    ensures Parse(q, expected) == Parse(p, expected)
  {
    var s := Parse(p, expected).value;
    FollowDecision.StripIdempotent(p.account);
    FollowDecision.StripIdempotent(p.loadedAt);
    ParsedNames(p.lists.value.0, Blacklist);
    ParsedNames(p.lists.value.1, Whitelist);
    NormalNames(q.lists.value.0.items.value, s.blacklist);
    NormalNames(q.lists.value.1.items.value, s.whitelist);
    hide Text.Strip, AllNames, NamesOf, SortedOf;
  }

  // -----------------------------------------------------------------------
  // Membership

  datatype Answer = Yes | No | Raises

  /** What the environment holds: nothing, or a payload (`None` when it is no dictionary). */
  datatype Environment = Environment(required: bool, snapshot: Option<Option<Payload>>)

  /** `is_interaction_blocked` and `is_unfollow_protected` differ only in the list. */
  function IsListed(username: string, env: Environment, kind: KindOfList): Answer {
    var normalized := NormalizeUsername(username);
    if normalized == "" then if env.required then Yes else No
    else if env.snapshot.None? then if env.required then Raises else No
    else if env.snapshot.value.None? then Raises
    else
      match Parse(env.snapshot.value.value, None)
      case Err(_) => Raises
      case Ok(s) => if normalized in (if kind.Blacklist? then s.blacklist else s.whitelist) then Yes else No
  }

  /** When protection is not required: a text that is no name is not listed; without a snapshot nothing is; with one the
      list answers, and a snapshot that does not parse raises. */
  lemma NotRequiredExactly(username: string, env: Environment, kind: KindOfList)
    requires !env.required
    ensures var name, answer := NormalizeUsername(username), IsListed(username, env, kind);
            && (name == "" || env.snapshot.None? ==> answer == No)
            && (name != "" && env.snapshot.Some? ==>
                  (answer == Raises <==> env.snapshot.value.Some? ==> Parse(env.snapshot.value.value, None).Err?))
            && (answer == Yes <==>
                  && name != "" && env.snapshot.Some? && env.snapshot.value.Some?
                  && Parse(env.snapshot.value.value, None).Ok?
                  && var s := Parse(env.snapshot.value.value, None).value;
                     if kind == Blacklist then name in s.blacklist else name in s.whitelist)
  {
    hide NormalizeUsername, Parse;
  }

  /** For strings that are the same name, the answer is the same. */
  lemma SameNameSameAnswer(u: string, v: string, env: Environment, kind: KindOfList)
    requires NormalizeUsername(u) == NormalizeUsername(v)
    ensures IsListed(u, env, kind) == IsListed(v, env, kind)
  {
  }

  /** Membership does not change with surrounding blanks, with the case of letters, or with a leading "@" of a
      string that stays a valid name. */
  lemma SpellingsAgree(u: string, t: string, before: string, after: string, env: Environment, kind: KindOfList)
    requires Blank(before) && Blank(after) && Text.Lower(t) == Text.Lower(u)
    ensures IsListed(before + t + after, env, kind) == IsListed(u, env, kind)
    ensures NormalizeUsername("@" + u) != "" ==> IsListed("@" + u, env, kind) == IsListed(u, env, kind)
  {
    hide NormalizeUsername, IsListed, Text.Lower;
    BlanksAndCaseIgnored(u, t, before, after);
    SameNameSameAnswer(before + t + after, u, env, kind);
    if NormalizeUsername("@" + u) != "" {
      LeadingAtIgnored(u);
      SameNameSameAnswer("@" + u, u, env, kind);
    }
  }

  /** When protection is required, "no" is only ever answered for a valid name against a snapshot that parses
      and whose list holds no spelling of the name: every other case answers "yes" or raises. */
  lemma RequiredFailsClosed(username: string, env: Environment, kind: KindOfList)
    requires env.required
    ensures IsListed(username, env, kind) == No <==>
              && NormalizeUsername(username) != "" && env.snapshot.Some? && env.snapshot.value.Some?
              && var p := env.snapshot.value.value;
                 && Parse(p, None).Ok?
                 && var items := (if kind.Blacklist? then p.lists.value.0 else p.lists.value.1).items.value;
                    forall i :: 0 <= i < |items| ==> NormalizeUsername(items[i]) != NormalizeUsername(username)
  {
    hide NormalizeUsername, Text.Strip;
  }
}
