/**
 * The relay loop of `getProfileFromEvent`: ask each configured relay in turn
 * for the author's kind-0 metadata event (NIP-01) and return the first profile
 * that names a Lightning address (`lud16` or `lud06`).
 *
 * What a relay does (connect, subscribe, the five-second timeout, parsing the
 * event's content as JSON) is one input per relay: the probe either failed or
 * produced a parsed profile.
 */
module Profile {
  import opened Wrappers
  import opened Json

  /** What asking one relay produced. */
  datatype RelayProbe =
    | ProbeFailed               // connect failed, timed out, or the content was not JSON
    | ProfileEvent(profile: Json)

  const NotFound := "No profile with Lightning address found"

  /**
   * The profile passes the script's check `!profile.lud16 && !profile.lud06`.
   * A `null` profile makes that check throw, and the loop's `catch` moves on,
   * just as for a profile without an address.
   */
  predicate HasLightningAddress(profile: Json) {
    profile != JNull && (Truthy(Prop(profile, "lud16")) || Truthy(Prop(profile, "lud06")))
  }

  predicate Usable(p: RelayProbe) {
    p.ProfileEvent? && HasLightningAddress(p.profile)
  }

  /** The index of the first relay whose probe gives a usable profile. */
  function FirstUsable(probes: seq<RelayProbe>): (r: Option<nat>)
    ensures r.Some? ==> r.value < |probes| && Usable(probes[r.value])
    ensures r.Some? ==> forall j :: 0 <= j < r.value ==> !Usable(probes[j])
    ensures r.None? ==> forall j :: 0 <= j < |probes| ==> !Usable(probes[j])
  {
    if probes == [] then None
    else if Usable(probes[0]) then Some(0)
    else match FirstUsable(probes[1..])
      case None => None
      case Some(k) => Some(k + 1)
  }

  /**
   * The loop over the relays, in order: a failed probe or a profile without
   * an address moves on to the next relay; the first profile with one is
   * returned. `contacted` is the number of relays asked before the loop
   * stopped.
   */
  method GetProfileFromEvent(probes: seq<RelayProbe>) returns (result: Result<Json, string>, contacted: nat)
    ensures result.Success? <==> FirstUsable(probes).Some?
    ensures result.Success? ==>
      result.value == probes[FirstUsable(probes).value].profile && contacted == FirstUsable(probes).value + 1
    ensures result.Failure? ==> result.error == NotFound && contacted == |probes|
  {
    var i := 0;
    while i < |probes|
      invariant 0 <= i <= |probes|
      invariant forall j :: 0 <= j < i ==> !Usable(probes[j])
    {
      if probes[i].ProfileEvent? {
        var profile := probes[i].profile;
        if profile != JNull && (Truthy(Prop(profile, "lud16")) || Truthy(Prop(profile, "lud06"))) {
          FirstIsUsable(probes, i);
          return Success(profile), i + 1;
        }
      }
      i := i + 1;
    }
    NoneUsable(probes);
    return Failure(NotFound), |probes|;
  }

  lemma {:induction false} FirstIsUsable(probes: seq<RelayProbe>, i: nat)
    requires i < |probes| && Usable(probes[i])
    requires forall j :: 0 <= j < i ==> !Usable(probes[j])
    ensures FirstUsable(probes) == Some(i)
  {
    if i > 0 {
      assert !Usable(probes[0]);
      FirstIsUsable(probes[1..], i - 1);
    }
  }

  lemma {:induction false} NoneUsable(probes: seq<RelayProbe>)
    requires forall j :: 0 <= j < |probes| ==> !Usable(probes[j])
    ensures FirstUsable(probes) == None
  {
    if probes != [] {
      NoneUsable(probes[1..]);
    }
  }

  /** Relays after the first usable one are never consulted: what they would say does not matter. */
  lemma {:induction false} LaterRelaysIgnored(probes: seq<RelayProbe>, rest: seq<RelayProbe>)
    requires FirstUsable(probes).Some?
    ensures FirstUsable(probes + rest) == FirstUsable(probes)
  {
    var k := FirstUsable(probes).value;
    assert forall j :: 0 <= j < k ==> (probes + rest)[j] == probes[j];
    FirstIsUsable(probes + rest, k);
  }

  /** A returned profile always has a truthy `lud16` or `lud06`, so the caller's later checks of both cannot fail. */
  lemma {:induction false} FoundProfileHasAddress(probes: seq<RelayProbe>)
    requires FirstUsable(probes).Some?
    ensures var p := probes[FirstUsable(probes).value].profile;
      p.JObj? && Truthy(JsOr(Prop(p, "lud16"), Prop(p, "lud06")))
  {
  }
}
