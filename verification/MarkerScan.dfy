/** The scan of a session summary for unsafe markers: a walk over nested data that collects the texts
    under semantic keys, and a search in their concatenation. */
module MarkerScan {
  import opened Options
  import Text

  /** A summary; numbers carry their text, and tuples are lists. */
  datatype Json =
    | Null
    | Bool(flag: bool)
    | Number(digits: string)
    | Str(text: string)
    | List(items: seq<Json>)
    | Dict(fields: seq<Field>)

  datatype Field = Field(key: string, value: Json)

  const SEMANTIC_KEYS := {
    "failure_reason", "root_failure_code", "specific_failure_reason", "hard_stop_reason",
    "safety_status", "runtime_status", "instagram_state", "login_state", "account_identity_status",
    "last_run_stop_reason", "follow_stop_reason", "unfollow_stop_reason"}

  function Normal(s: string): string {
    Text.Lower(Text.Strip(s))
  }

  /** The text of a scalar, normalised; `None` for anything else. */
  function ScalarText(v: Json): Option<string> {
    match v
    case Bool(b) => Some(if b then "true" else "false")
    case Number(digits) => Some(Normal(digits))
    case Str(text) => Some(Normal(text))
    case _ => None
  }

  /** The text that a field itself contributes. */
  function OwnText(f: Field): Option<string> {
    if Normal(f.key) in SEMANTIC_KEYS then ScalarText(f.value) else None
  }

  /** A key that names a failure or a state, whatever the blanks around it and the case of its letters. */
  predicate SafetyKey(key: string) {
    var k := Text.Lower(Text.Strip(key));
    || k == "failure_reason" || k == "root_failure_code" || k == "specific_failure_reason"
    || k == "hard_stop_reason" || k == "safety_status" || k == "runtime_status" || k == "instagram_state"
    || k == "login_state" || k == "account_identity_status" || k == "last_run_stop_reason"
    || k == "follow_stop_reason" || k == "unfollow_stop_reason"
  }

  /** What a field contributes: the lower-case text of a scalar without surrounding blanks, under such a key. */
  lemma OwnTextExactly(f: Field, t: string)
    ensures OwnText(f) == Some(t)
       <==> && SafetyKey(f.key)
            && (|| (f.value.Bool? && t == if f.value.flag then "true" else "false")
                || (f.value.Number? && t == Text.Lower(Text.Strip(f.value.digits)))
                || (f.value.Str? && t == Text.Lower(Text.Strip(f.value.text))))
  {
    hide Text.Lower, Text.Strip;
  }

  // -----------------------------------------------------------------------
  // The walk

  function SemanticText(v: Json): seq<string> {
    if v.Dict? then FieldsText(v.fields) else []
  }

  function FieldsText(fields: seq<Field>): seq<string> {
    if fields == [] then [] else FieldText(fields[0]) + FieldsText(fields[1..])
  }

  function FieldText(f: Field): seq<string> {
    Own(f) + if f.value.List? then ItemsText(f.value.items) else SemanticText(f.value)
  }

  function Own(f: Field): seq<string> {
    if OwnText(f).Some? then [OwnText(f).value] else []
  }

  function ItemsText(items: seq<Json>): seq<string> {
    if items == [] then [] else SemanticText(items[0]) + ItemsText(items[1..])
  }

  lemma {:induction false} FieldsTextConcat(a: seq<Field>, b: seq<Field>)
    ensures FieldsText(a + b) == FieldsText(a) + FieldsText(b)
  {
    hide FieldText;
    if a == [] {
      assert a + b == b;
    } else {
      FieldsTextConcat(a[1..], b);
      assert (a + b)[1..] == a[1..] + b;
    }
  }

  lemma {:induction false} ItemsTextConcat(a: seq<Json>, b: seq<Json>)
    ensures ItemsText(a + b) == ItemsText(a) + ItemsText(b)
  {
    hide SemanticText;
    if a == [] {
      assert a + b == b;
    } else {
      ItemsTextConcat(a[1..], b);
      assert (a + b)[1..] == a[1..] + b;
    }
  }

  lemma FieldsTextOne(fields: seq<Field>, k: nat)
    requires k < |fields|
    ensures FieldsText(fields[..k + 1]) == FieldsText(fields[..k]) + FieldText(fields[k])
  {
    assert fields[..k + 1] == fields[..k] + [fields[k]];
    FieldsTextConcat(fields[..k], [fields[k]]);
    assert FieldsText([fields[k]]) == FieldText(fields[k]) + FieldsText([]);
  }

  lemma ItemsTextOne(items: seq<Json>, k: nat)
    requires k < |items|
    ensures ItemsText(items[..k + 1]) == ItemsText(items[..k]) + SemanticText(items[k])
  {
    assert items[..k + 1] == items[..k] + [items[k]];
    ItemsTextConcat(items[..k], [items[k]]);
    assert ItemsText([items[k]]) == SemanticText(items[k]) + ItemsText([]);
  }

  /** `_semantic_safety_text`: two nested loops that collect, and a recursive call for each nested dict. */
  method SemanticSafetyText(v: Json) returns (out: seq<string>)
    ensures out == SemanticText(v)
    decreases v
  {
    hide OwnText, FieldsText, ItemsText;
    out := [];
    if !v.Dict? {
      return;
    }
    NoText();
    for k := 0 to |v.fields|
      invariant out == FieldsText(v.fields[..k])
    {
      var child := v.fields[k].value;
      FieldsTextOne(v.fields, k);
      var own := OwnText(v.fields[k]);
      if own.Some? {
        out := out + [own.value];
      }
      ghost var before := out;
      assert before == FieldsText(v.fields[..k]) + Own(v.fields[k]);
      if child.Dict? {
        var inner := SemanticSafetyText(child);
        out := out + inner;
      } else if child.List? {
        for j := 0 to |child.items|
          invariant out == before + ItemsText(child.items[..j])
        {
          ItemsTextOne(child.items, j);
          if child.items[j].Dict? {
            var inner := SemanticSafetyText(child.items[j]);
            out := out + inner;
          }
        }
        assert child.items[..|child.items|] == child.items;
      }
    }
    assert v.fields[..|v.fields|] == v.fields;
  }

  lemma NoText()
    ensures FieldsText([]) == [] && ItemsText([]) == []
  {
  }

  // -----------------------------------------------------------------------
  // What the walk finds

  /** One hop from a dict to a nested dict: the value of a field, or an item of its list. */
  datatype Hop = Into(field: nat) | IntoItem(field: nat, item: nat)

  function Target(v: Json, hop: Hop): Option<Json> {
    if !v.Dict? || hop.field >= |v.fields| then None
    else
      var child := v.fields[hop.field].value;
      match hop
      case Into(_) => if child.Dict? then Some(child) else None
      case IntoItem(_, j) =>
        if child.List? && j < |child.items| && child.items[j].Dict? then Some(child.items[j]) else None
  }

  /** `path` leads from `v` through dicts and lists of dicts to a dict whose field `k` is a scalar with a
      semantic key and the text `t`. */
  predicate Reaches(v: Json, path: seq<Hop>, k: nat, t: string) {
    if path == [] then v.Dict? && k < |v.fields| && OwnText(v.fields[k]) == Some(t)
    else Target(v, path[0]).Some? && Reaches(Target(v, path[0]).value, path[1..], k, t)
  }

  lemma {:induction false} InFields(fields: seq<Field>, t: string)
    ensures t in FieldsText(fields) <==> exists k :: 0 <= k < |fields| && t in FieldText(fields[k])
  {
    hide FieldText;
    if fields == [] {
    } else {
      InFields(fields[1..], t);
      if k :| 0 <= k < |fields[1..]| && t in FieldText(fields[1..][k]) {
        assert t in FieldText(fields[k + 1]);
      }
      if k :| 0 < k < |fields| && t in FieldText(fields[k]) {
        assert t in FieldText(fields[1..][k - 1]);
      }
    }
  }

  lemma {:induction false} InItems(items: seq<Json>, t: string)
    ensures t in ItemsText(items) <==> exists j :: 0 <= j < |items| && t in SemanticText(items[j])
  {
    hide SemanticText;
    if items == [] {
    } else {
      InItems(items[1..], t);
      if j :| 0 <= j < |items[1..]| && t in SemanticText(items[1..][j]) {
        assert t in SemanticText(items[j + 1]);
      }
      if j :| 0 < j < |items| && t in SemanticText(items[j]) {
        assert t in SemanticText(items[1..][j - 1]);
      }
    }
  }

  /** A text is collected from a dict exactly when one of its fields has it or a nested dict one hop away does. */
  lemma OneHop(v: Json, t: string)
    requires v.Dict?
    ensures t in SemanticText(v) <==>
              || (exists k :: 0 <= k < |v.fields| && OwnText(v.fields[k]) == Some(t))
              || (exists hop :: Target(v, hop).Some? && t in SemanticText(Target(v, hop).value))
  {
    hide OwnText, FieldsText;
    InFields(v.fields, t);
    if t in SemanticText(v) {
      var k :| 0 <= k < |v.fields| && t in FieldText(v.fields[k]);
      FieldHop(v, k, t);
    }
    if k :| 0 <= k < |v.fields| && OwnText(v.fields[k]) == Some(t) {
      assert t in FieldText(v.fields[k]);
    }
    if hop :| Target(v, hop).Some? && t in SemanticText(Target(v, hop).value) {
      var child := v.fields[hop.field].value;
      if child.List? {
        InItems(child.items, t);
      }
      assert t in FieldText(v.fields[hop.field]);
    }
  }

  lemma FieldHop(v: Json, k: nat, t: string)
    requires v.Dict? && k < |v.fields| && t in FieldText(v.fields[k])
    ensures || OwnText(v.fields[k]) == Some(t)
            || exists hop :: Target(v, hop).Some? && t in SemanticText(Target(v, hop).value)
  {
    hide OwnText;
    var child := v.fields[k].value;
    if OwnText(v.fields[k]) != Some(t) {
      if child.List? {
        InItems(child.items, t);
        var j: nat :| j < |child.items| && t in SemanticText(child.items[j]);
        assert Target(v, IntoItem(k, j)) == Some(child.items[j]);
      } else {
        assert Target(v, Into(k)) == Some(child);
      }
    }
  }

  /** Whatever a path reaches is collected. */
  lemma {:induction false} ReachedIsCollected(v: Json, path: seq<Hop>, k: nat, t: string)
    requires Reaches(v, path, k, t)
    ensures t in SemanticText(v)
    decreases |path|
  {
    hide OwnText, SemanticText;
    OneHop(v, t);
    if path != [] {
      ReachedIsCollected(Target(v, path[0]).value, path[1..], k, t);
    }
  }

  /** Whatever is collected is reached by a path. */
  lemma {:induction false} CollectedIsReached(v: Json, t: string) returns (path: seq<Hop>, k: nat)
    requires t in SemanticText(v)
    ensures Reaches(v, path, k, t)
    decreases v
  {
    hide OwnText, SemanticText;
    assert v.Dict? by { CollectedFromDict(v, t); }
    OneHop(v, t);
    if i: nat :| i < |v.fields| && OwnText(v.fields[i]) == Some(t) {
      path, k := [], i;
    } else {
      var hop :| Target(v, hop).Some? && t in SemanticText(Target(v, hop).value);
      var inner;
      inner, k := CollectedIsReached(Target(v, hop).value, t);
      path := [hop] + inner;
      assert path[1..] == inner;
    }
  }

  lemma CollectedFromDict(v: Json, t: string)
    requires t in SemanticText(v)
    ensures v.Dict?
  {
  }

  /** The walk collects exactly the texts of the scalars under semantic keys that are reached through dicts
      and lists of dicts. */
  lemma WalkExact(v: Json, t: string)
    ensures t in SemanticText(v) <==> exists path, k :: Reaches(v, path, k, t)
  {
    hide SemanticText, Reaches;
    if t in SemanticText(v) {
      var path, k := CollectedIsReached(v, t);
    }
    if path, k :| Reaches(v, path, k, t) {
      ReachedIsCollected(v, path, k, t);
    }
  }

  // -----------------------------------------------------------------------
  // The search

  /** The text that `_unsafe_markers` searches. */
  function Searched(summary: Json): string {
    Text.Join(SemanticText(summary))
  }

  /** Some reached scalar contains the pattern. */
  ghost predicate SomeScalarContains(summary: Json, pattern: string) {
    exists path, k, t :: Reaches(summary, path, k, t) && Text.Contains(t, pattern)
  }

  /** Joining neither hides nor creates an occurrence of a pattern without blanks. */
  lemma ScanExact(summary: Json, pattern: string)
    requires pattern != "" && Text.SpaceFree(pattern)
    ensures Text.Contains(Searched(summary), pattern) <==> SomeScalarContains(summary, pattern)
  {
    hide SemanticText, Reaches, Text.Join, Text.Contains;
    var texts := SemanticText(summary);
    Text.JoinContains(texts, pattern);
    if i :| 0 <= i < |texts| && Text.Contains(texts[i], pattern) {
      WalkExact(summary, texts[i]);
    }
    if path, k, t :| Reaches(summary, path, k, t) && Text.Contains(t, pattern) {
      ReachedIsCollected(summary, path, k, t);
      var i :| 0 <= i < |texts| && texts[i] == t;
    }
  }

  predicate Starts(text: string, head: string) {
    head <= text
  }

  predicate Ends(text: string, tail: string) {
    |tail| <= |text| && text[|text| - |tail|..] == tail
  }

  /** An occurrence of a pattern with one blank in two joined texts lies in one of them or fits the seam. */
  lemma SeamConcat(a: string, b: string, head: string, tail: string)
    requires head != "" && tail != "" && Text.SpaceFree(head) && Text.SpaceFree(tail)
    ensures Text.Contains(a + " " + b, head + " " + tail) <==>
              || Text.Contains(a, head + " " + tail) || Text.Contains(b, head + " " + tail) || (Ends(a, head)
                  && Starts(b, tail))
  {
    var t, p := a + " " + b, head + " " + tail;
    Text.ContainsConcat(a, " " + b, p);
    Text.ContainsConcat(a + " ", b, p);
    assert t == a + (" " + b) && p[|head|] == ' ';
    if Ends(a, head) && Starts(b, tail) {
      var i := |a| - |head|;
      assert t[i..i + |p|] == p;
      assert Text.OccursAt(t, p, i);
    }
    if Text.Contains(t, p) {
      var i :| 0 <= i <= |t| && Text.OccursAt(t, p, i);
      SeamCases(a, b, head, tail, i);
    }
  }

  lemma SeamCases(a: string, b: string, head: string, tail: string, i: nat)
    requires head != "" && tail != "" && Text.SpaceFree(head) && Text.SpaceFree(tail)
    requires Text.OccursAt(a + " " + b, head + " " + tail, i)
    ensures || Text.Contains(a, head + " " + tail) || Text.Contains(b, head + " " + tail) || (Ends(a, head)
        && Starts(b, tail))
  {
    var t, p := a + " " + b, head + " " + tail;
    assert t[|a|] == ' ' && forall k :: 0 <= k < |p| ==> t[i..i + |p|][k] == p[k] == t[i + k];
    if i + |p| <= |a| {
      assert a[i..i + |p|] == t[i..i + |p|];
      assert Text.OccursAt(a, p, i);
    } else if i > |a| {
      var j := i - |a| - 1;
      assert b[j..j + |p|] == t[i..i + |p|];
      assert Text.OccursAt(b, p, j);
    } else {
      assert p[|a| - i] == ' ';
      OnlyBlank(head, tail, |a| - i);
      assert |a| - i == |head|;
      assert forall k :: 0 <= k < |head| ==> a[i + k] == t[i + k] == head[k];
      assert a[i..] == head;
      assert forall k :: 0 <= k < |tail| ==> b[k] == t[|a| + 1 + k] == tail[k];
      assert b[..|tail|] == tail;
    }
  }

  lemma OnlyBlank(head: string, tail: string, k: nat)
    requires Text.SpaceFree(head) && Text.SpaceFree(tail) && k < |head + " " + tail| && (head + " " + tail)[k] == ' '
    ensures k == |head|
  {
    assert forall j :: 0 <= j < |head| ==> (head + " " + tail)[j] == head[j] != ' ';
    assert forall j :: |head| < j < |head + " " + tail| ==> (head + " " + tail)[j] == tail[j - |head| - 1] != ' ';
  }

  /** A joined text starts with a word exactly when its first part does. */
  lemma JoinStarts(parts: seq<string>, word: string)
    requires parts != [] && word != "" && Text.SpaceFree(word)
    ensures Starts(Text.Join(parts), word) <==> Starts(parts[0], word)
  {
    if |parts| > 1 {
      var joined := Text.Join(parts);
      assert joined == parts[0] + " " + Text.Join(parts[1..]);
      assert joined[|parts[0]|] == ' ' && forall j :: 0 <= j < |word| ==> word[j] != ' ';
    }
  }

  /** A pattern of two words is found in the joined text exactly when one part contains it, or one part ends
      with the first word and the next begins with the second. */
  lemma {:induction false} JoinContainsTwoWords(parts: seq<string>, head: string, tail: string)
    requires head != "" && tail != "" && Text.SpaceFree(head) && Text.SpaceFree(tail)
    ensures Text.Contains(Text.Join(parts), head + " " + tail) <==>
              || (exists k :: 0 <= k < |parts| && Text.Contains(parts[k], head + " " + tail))
              || (exists k :: 0 <= k < |parts| - 1 && Ends(parts[k], head) && Starts(parts[k + 1], tail))
  {
    hide Text.SpaceFree, Text.Contains, Starts, Ends;
    if parts == [] {
      NotInEmpty(head + " " + tail);
    } else if |parts| == 1 {
      assert parts[0] == Text.Join(parts);
    } else {
      var rest := parts[1..];
      JoinContainsTwoWords(rest, head, tail);
      SeamConcat(parts[0], Text.Join(rest), head, tail);
      JoinStarts(rest, tail);
      TwoWordsShift(parts, head, tail);
    }
  }

  lemma NotInEmpty(p: string)
    requires p != ""
    ensures !Text.Contains("", p)
  {
  }

  lemma TwoWordsShift(parts: seq<string>, head: string, tail: string)
    requires |parts| > 1
    ensures (exists k :: 0 <= k < |parts| && Text.Contains(parts[k], head + " " + tail)) <==>
              || Text.Contains(parts[0], head + " " + tail)
              || (exists k :: 0 <= k < |parts[1..]| && Text.Contains(parts[1..][k], head + " " + tail))
    ensures (exists k :: 0 <= k < |parts| - 1 && Ends(parts[k], head) && Starts(parts[k + 1], tail)) <==>
              || (Ends(parts[0], head) && Starts(parts[1], tail))
              || (exists k :: 0 <= k < |parts[1..]| - 1 && Ends(parts[1..][k], head) && Starts(parts[1..][k + 1], tail))
  {
    hide Text.Contains, Starts, Ends;
    var rest := parts[1..];
    assert forall k :: 0 <= k < |rest| ==> rest[k] == parts[k + 1];
    if k :| 0 < k < |parts| && Text.Contains(parts[k], head + " " + tail) {
      assert Text.Contains(rest[k - 1], head + " " + tail);
    }
    if k :| 0 <= k < |rest| && Text.Contains(rest[k], head + " " + tail) {
      assert Text.Contains(parts[k + 1], head + " " + tail);
    }
    if k :| 0 < k < |parts| - 1 && Ends(parts[k], head) && Starts(parts[k + 1], tail) {
      assert Ends(rest[k - 1], head) && Starts(rest[k - 1 + 1], tail);
    }
    if k :| 0 <= k < |rest| - 1 && Ends(rest[k], head) && Starts(rest[k + 1], tail) {
      assert Ends(parts[k + 1], head) && Starts(parts[k + 1 + 1], tail);
    }
  }

  // -----------------------------------------------------------------------
  // The markers

  datatype Marker = AccountMismatch | Challenge | Restriction | ActionBlock

  const MARKERS: seq<Marker> := [AccountMismatch, Challenge, Restriction, ActionBlock]

  function Patterns(m: Marker): seq<string> {
    match m
    case AccountMismatch => ["active_instagram_account_mismatch", "account_mismatch"]
    case Challenge => ["challenge", "checkpoint"]
    case Restriction => ["restriction", "restricted"]
    case ActionBlock => ["action_block", "action block", "action-block", "feedback_required"]
  }

  function Found(text: string, markers: seq<Marker>): seq<Marker> {
    if markers == [] then []
    else
      var last := markers[|markers| - 1];
      Found(text, markers[..|markers| - 1]) + if Text.ContainsAny(text, Patterns(last)) then [last] else []
  }

  /** `_unsafe_markers` */
  method UnsafeMarkers(summary: Json) returns (markers: seq<Marker>)
    ensures markers == Found(Searched(summary), MARKERS)
  {
    hide Text.ContainsAny, Text.Join, Patterns;
    var texts := SemanticSafetyText(summary);
    var text := Text.Join(texts);
    markers := [];
    for k := 0 to |MARKERS|
      invariant markers == Found(text, MARKERS[..k])
    {
      assert MARKERS[..k + 1][..k] == MARKERS[..k];
      if Text.ContainsAny(text, Patterns(MARKERS[k])) {
        markers := markers + [MARKERS[k]];
      }
    }
    assert MARKERS[..|MARKERS|] == MARKERS;
  }

  lemma {:induction false} FoundExactly(text: string, markers: seq<Marker>, m: Marker)
    ensures m in Found(text, markers) <==> m in markers && Text.ContainsAny(text, Patterns(m))
  {
    hide Text.ContainsAny, Patterns;
    if markers != [] {
      FoundExactly(text, markers[..|markers| - 1], m);
      assert markers == markers[..|markers| - 1] + [markers[|markers| - 1]];
    }
  }

  /** Two collected texts that follow each other end in "action" and begin with "block". */
  predicate Fused(summary: Json) {
    var texts := SemanticText(summary);
    exists k :: 0 <= k < |texts| - 1 && Ends(texts[k], "action") && Starts(texts[k + 1], "block")
  }

  ghost predicate SomePattern(summary: Json, m: Marker) {
    exists i :: 0 <= i < |Patterns(m)| && SomeScalarContains(summary, Patterns(m)[i])
  }

  /** The marker's patterns, one by one. */
  ghost predicate Mentions(summary: Json, m: Marker) {
    match m
    case AccountMismatch =>
      || SomeScalarContains(summary, "active_instagram_account_mismatch")
      || SomeScalarContains(summary, "account_mismatch")
    case Challenge => SomeScalarContains(summary, "challenge") || SomeScalarContains(summary, "checkpoint")
    case Restriction => SomeScalarContains(summary, "restriction") || SomeScalarContains(summary, "restricted")
    case ActionBlock =>
      || SomeScalarContains(summary, "action_block") || SomeScalarContains(summary, "action block")
      || SomeScalarContains(summary, "action-block") || SomeScalarContains(summary, "feedback_required")
  }

  lemma PatternsExactly(summary: Json, m: Marker)
    ensures SomePattern(summary, m) <==> Mentions(summary, m)
  {
    hide SomeScalarContains;
    var ps := Patterns(m);
    assert ps[0] in ps && ps[1] in ps;
    match m
    case AccountMismatch => assert ps[0] == "active_instagram_account_mismatch" && ps[1] == "account_mismatch";
    case Challenge => assert ps[0] == "challenge" && ps[1] == "checkpoint";
    case Restriction => assert ps[0] == "restriction" && ps[1] == "restricted";
    case ActionBlock =>
      assert ps[0] == "action_block" && ps[1] == "action block" && ps[2] == "action-block"
        && ps[3] == "feedback_required";
  }

  lemma PatternsBlankFree(m: Marker, i: nat)
    requires i < |Patterns(m)| && !(m.ActionBlock? && i == 1)
    ensures Patterns(m)[i] != "" && Text.SpaceFree(Patterns(m)[i])
  {
  }

  lemma ActionBlockTwoWords()
    ensures Patterns(ActionBlock)[1] == "action" + " " + "block"
    ensures Text.SpaceFree("action") && Text.SpaceFree("block")
  {
  }

  /** "action block" is found exactly when a scalar contains it or two collected texts fuse into it. */
  lemma ActionBlockScan(summary: Json)
    ensures Text.Contains(Searched(summary), "action block")
       <==> SomeScalarContains(summary, "action block") || Fused(summary)
  {
    hide SemanticText, Reaches, Text.Join, Text.Contains, Starts, Ends;
    ActionBlockTwoWords();
    var texts := SemanticText(summary);
    JoinContainsTwoWords(texts, "action", "block");
    if i :| 0 <= i < |texts| && Text.Contains(texts[i], "action block") {
      WalkExact(summary, texts[i]);
    }
    if path, k, t :| Reaches(summary, path, k, t) && Text.Contains(t, "action block") {
      ReachedIsCollected(summary, path, k, t);
      var i :| 0 <= i < |texts| && texts[i] == t;
    }
  }

  lemma PatternScan(summary: Json, m: Marker, i: nat)
    requires i < |Patterns(m)|
    ensures Text.Contains(Searched(summary), Patterns(m)[i]) <==>
              SomeScalarContains(summary, Patterns(m)[i]) || (m.ActionBlock? && i == 1 && Fused(summary))
  {
    hide Searched, SomeScalarContains, Fused, Text.Contains;
    if m.ActionBlock? && i == 1 {
      ActionBlockTwoWords();
      ActionBlockScan(summary);
    } else {
      PatternsBlankFree(m, i);
      ScanExact(summary, Patterns(m)[i]);
    }
  }

  /** A marker is reported exactly when a scalar under a semantic key contains one of its patterns; the
      action-block marker also when two collected texts fuse into "action block". */
  lemma MarkersExact(summary: Json, m: Marker)
    ensures m in Found(Searched(summary), MARKERS) <==> Mentions(summary, m) || (m.ActionBlock? && Fused(summary))
  {
    PatternsExactly(summary, m);
    hide Searched, SomeScalarContains, Fused, Text.Contains, Found, Patterns, Mentions;
    FoundExactly(Searched(summary), MARKERS, m);
    EveryMarker(m);
    if i :| 0 <= i < |Patterns(m)| && Text.Contains(Searched(summary), Patterns(m)[i]) {
      PatternScan(summary, m, i);
    }
    if i :| 0 <= i < |Patterns(m)| && SomeScalarContains(summary, Patterns(m)[i]) {
      PatternScan(summary, m, i);
    }
    if m.ActionBlock? && Fused(summary) {
      assert |Patterns(ActionBlock)| == 4 by { FourPatterns(); }
      PatternScan(summary, m, 1);
    }
  }

  lemma EveryMarker(m: Marker)
    ensures m in MARKERS
  {
    assert MARKERS[0] == AccountMismatch && MARKERS[1] == Challenge;
    assert MARKERS[2] == Restriction && MARKERS[3] == ActionBlock;
  }

  lemma FourPatterns()
    ensures |Patterns(ActionBlock)| == 4
  {
  }

  /** A summary for which joining creates the pattern: no scalar contains any of the marker's patterns. */
  const FUSING := Dict([Field("login_state", Str("action")), Field("safety_status", Str("block"))])

  predicate Plain(s: string) {
    forall i :: 0 <= i < |s| ==> !Text.IsSpace(s[i]) && !('A' <= s[i] <= 'Z')
  }

  lemma PlainIsNormal(s: string)
    requires Plain(s)
    ensures Normal(s) == s
  {
  }

  lemma PlainField(key: string, text: string)
    requires Plain(key) && Plain(text) && key in SEMANTIC_KEYS
    ensures FieldText(Field(key, Str(text))) == [text]
  {
    PlainIsNormal(key);
    PlainIsNormal(text);
    hide Normal, Plain;
  }

  lemma FusingPlain()
    ensures Plain("login_state") && Plain("safety_status") && Plain("action") && Plain("block")
  {
  }

  lemma FusingTexts()
    ensures SemanticText(FUSING) == ["action", "block"]
  {
    hide FieldText, Plain;
    FusingPlain();
    PlainField("login_state", "action");
    PlainField("safety_status", "block");
    FieldsTextOne(FUSING.fields, 0);
    FieldsTextOne(FUSING.fields, 1);
    assert FUSING.fields[..2] == FUSING.fields;
  }

  lemma FusingScalars(path: seq<Hop>, k: nat, t: string)
    requires Reaches(FUSING, path, k, t)
    ensures |t| < 12
  {
    hide SemanticText, Reaches;
    ReachedIsCollected(FUSING, path, k, t);
    FusingTexts();
  }

  lemma PatternsAreLong(i: nat)
    requires i < |Patterns(ActionBlock)|
    ensures |Patterns(ActionBlock)[i]| >= 12
  {
  }

  /** Joining with a blank can create the action-block marker. */
  lemma JoiningCanCreateMarker()
    ensures ActionBlock in Found(Searched(FUSING), MARKERS) && !SomePattern(FUSING, ActionBlock)
  {
    hide Found, Searched, SemanticText, Reaches, Patterns, Text.Join;
    FusingTexts();
    assert Fused(FUSING) by {
      assert Ends(SemanticText(FUSING)[0], "action") && Starts(SemanticText(FUSING)[0 + 1], "block");
    }
    MarkersExact(FUSING, ActionBlock);
    forall i: nat, path, k: nat, t |
      i < |Patterns(ActionBlock)| && Reaches(FUSING, path, k, t)
      ensures !Text.Contains(t, Patterns(ActionBlock)[i])
    {
      FusingScalars(path, k, t);
      PatternsAreLong(i);
    }
  }
}
