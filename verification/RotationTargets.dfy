/** The list of Follow targets ("CTs") that one rotation walks through. */
module RotationTargets {
  import opened Options
  import Text
  import FollowDecision

  /** A row from the target loader; a missing field is the empty string. */
  datatype Row =
    | NotARecord
    | Row(targetId: string, id: string, sourceProfile: string, sourceProfileUsername: string,
          targetUsername: string, username: string)

  /** `key` is `_follow_target_key` of the target: its id when it has one, otherwise its profile. */
  datatype Target = Target(targetId: string, sourceProfile: string, index: nat, key: string)

  /** `x or y` on strings. */
  function Or(x: string, y: string): string {
    if x != "" then x else y
  }

  /** `_as_source_profile` */
  function AsSourceProfile(s: string): string {
    Text.Lower(Text.DropAts(Text.Strip(s)))
  }

  /** `_rotation_target_from_row` */
  function FromRow(row: Row, index: nat): Option<Target> {
    match row
    case NotARecord => None
    case Row(_, _, _, _, _, _) =>
      var profile := AsSourceProfile(
        Or(row.sourceProfile, Or(row.sourceProfileUsername, Or(row.targetUsername, row.username))));
      var id := Text.Strip(Or(row.targetId, row.id));
      if profile == "" then None
      else Some(Target(id, profile, index, Or(Text.Strip(id), AsSourceProfile(profile))))
  }

  /** The first of four fields that is there. */
  function FirstField(a: string, b: string, c: string, d: string): string {
    if a != "" then a else if b != "" then b else if c != "" then c else d
  }

  /** The profile that a text names: in small letters, without blanks around it and without leading "@". */
  function ProfileIn(text: string): string {
    Text.Lower(Text.DropAts(Text.Strip(text)))
  }

  /** Which target a row yields: one with a profile, under the first of four names, and its id under the first of two;
      the key is the id, and for want of one the profile. */
  lemma FromRowExactly(row: Row, index: nat, t: Target)
    ensures FromRow(row, index) == Some(t)
       <==> && row.Row?
            && t.sourceProfile
            == ProfileIn(FirstField(row.sourceProfile, row.sourceProfileUsername, row.targetUsername, row.username))
            && t.sourceProfile != ""
            && t.targetId == Text.Strip(if row.targetId != "" then row.targetId else row.id)
            && t.index == index
            && t.key == if t.targetId != "" then t.targetId else ProfileIn(t.sourceProfile)
  {
    if row.Row? {
      FollowDecision.StripIdempotent(if row.targetId != "" then row.targetId else row.id);
    }
    hide Text.Strip, Text.Lower, Text.DropAts;
  }

  /** What each row offers, before repeated keys are dropped. */
  function Offers(followTargets: seq<Row>, fallbackProfile: string, fallbackId: string): seq<Option<Target>> {
    var rows := if followTargets == [] && AsSourceProfile(fallbackProfile) != ""
                then [Row("", fallbackId, "", fallbackProfile, "", "")]
                else followTargets;
    seq(|rows|, i requires 0 <= i < |rows| => FromRow(rows[i], i))
  }

  /** The rows that count: those given, and for want of them one made of the fallback, if that names a profile. */
  lemma OffersExactly(followTargets: seq<Row>, fallbackProfile: string, fallbackId: string)
    ensures var offers := Offers(followTargets, fallbackProfile, fallbackId);
            if followTargets == [] && ProfileIn(fallbackProfile) != "" then
              offers == [FromRow(Row("", fallbackId, "", fallbackProfile, "", ""), 0)]
            else
              |offers| == |followTargets| && forall i :: 0 <= i < |offers| ==> offers[i] == FromRow(followTargets[i], i)
  {
    hide Text.Strip, Text.Lower, Text.DropAts, FromRow;
  }

  ghost predicate DistinctKeys(ts: seq<Target>) {
    && (forall i :: 0 <= i < |ts| ==> ts[i].key != "")
    && (forall i, j :: 0 <= i < j < |ts| ==> ts[i].key != ts[j].key)
  }

  /** The key of offer `i`, or "" when the row yields no target. */
  function KeyAt(offers: seq<Option<Target>>, i: nat): string
    requires i < |offers|
  {
    if offers[i].None? then "" else offers[i].value.key
  }

  /** Offer `i` has a key that no earlier offer has. */
  ghost predicate FirstOfItsKey(offers: seq<Option<Target>>, i: nat)
    requires i < |offers|
  {
    KeyAt(offers, i) != "" && forall j :: 0 <= j < i ==> KeyAt(offers, j) != KeyAt(offers, i)
  }

  /** The targets kept are, in row order, exactly those that are the first of their key. */
  ghost predicate KeepsFirstOfEachKey(offers: seq<Option<Target>>, out: seq<Target>, kept: seq<nat>) {
    && |kept| == |out|
    && (forall a, b :: 0 <= a < b < |kept| ==> kept[a] < kept[b])
    && (forall a :: 0 <= a < |kept| ==> kept[a] < |offers| && offers[kept[a]] == Some(out[a]))
    && (forall i :: 0 <= i < |offers| ==> (i in kept <==> FirstOfItsKey(offers, i)))
  }

  /** One step of the walk: offer `n` is kept exactly when its key is new. */
  lemma KeepStep(offers: seq<Option<Target>>, n: nat, out: seq<Target>, kept: seq<nat>, seen: set<string>)
    requires n < |offers| && KeepsFirstOfEachKey(offers[..n], out, kept)
    requires forall j :: 0 <= j < n && KeyAt(offers, j) != "" ==> KeyAt(offers, j) in seen
    requires forall k :: k in seen ==> exists j :: 0 <= j < n && KeyAt(offers, j) == k
    ensures KeyAt(offers, n) == "" || KeyAt(offers, n) in seen ==> KeepsFirstOfEachKey(offers[..n + 1], out, kept)
    ensures KeyAt(offers, n) != "" && KeyAt(offers, n) !in seen ==>
              KeepsFirstOfEachKey(offers[..n + 1], out + [offers[n].value], kept + [n])
  {
    var before, after := offers[..n], offers[..n + 1];
    assert forall i :: 0 <= i < n ==> after[i] == before[i] && KeyAt(after, i) == KeyAt(before, i) == KeyAt(offers, i);
    assert forall i :: 0 <= i < n ==> (FirstOfItsKey(after, i) <==> FirstOfItsKey(before, i));
    assert after[n] == offers[n] && KeyAt(after, n) == KeyAt(offers, n);
  }

  /** `_build_follow_rotation_targets` */
  method BuildFollowRotationTargets(followTargets: seq<Row>, fallbackProfile: string, fallbackId: string)
    returns (out: seq<Target>)
    ensures exists kept :: KeepsFirstOfEachKey(Offers(followTargets, fallbackProfile, fallbackId), out, kept)
    ensures DistinctKeys(out)
  {
    out := [];
    var seen: set<string> := {};
    ghost var kept: seq<nat> := [];
    var offers := Offers(followTargets, fallbackProfile, fallbackId);
    for index := 0 to |offers|
      invariant forall j :: 0 <= j < index && KeyAt(offers, j) != "" ==> KeyAt(offers, j) in seen
      invariant forall k :: k in seen ==> exists j :: 0 <= j < index && KeyAt(offers, j) == k
      invariant KeepsFirstOfEachKey(offers[..index], out, kept)
    {
      KeepStep(offers, index, out, kept, seen);
      var key := KeyAt(offers, index);
      if offers[index].None? || key == "" || key in seen {
        continue;
      }
      seen := seen + {key};
      out := out + [offers[index].value];
      kept := kept + [index];
    }
    assert offers[..|offers|] == offers;
    KeptAreDistinct(offers, out, kept);
  }

  lemma KeptAreDistinct(offers: seq<Option<Target>>, out: seq<Target>, kept: seq<nat>)
    requires KeepsFirstOfEachKey(offers, out, kept)
    ensures DistinctKeys(out)
  {
    forall i | 0 <= i < |out| ensures out[i].key == KeyAt(offers, kept[i]) && FirstOfItsKey(offers, kept[i]) {
      assert kept[i] in kept;
    }
  }
}
