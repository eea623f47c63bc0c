/**
 * The button-action vocabulary of a step: six standard navigation actions or
 * an app-defined custom action string, together with the string codec used to
 * decode button names from an assessment definition and to encode them back.
 */
module ButtonTypes {
  import opened Wrappers

  /** The standard navigation actions, in declaration order. */
  datatype Navigation =
    | GoForward
    | GoBackward
    | Skip
    | Cancel
    | Pause
    | ReviewInstructions

  /** A button action: a standard navigation action or a custom action handled by the app. */
  datatype ButtonType =
    | NavigationAction(nav: Navigation)
    | Custom(action: string)

  /** The raw value of a navigation case: the name of the case, a lower-camel-case identifier. */
  function NavigationRawValue(n: Navigation): (r: string)
    ensures |r| > 0 && 'a' <= r[0] <= 'z'
    ensures forall k :: 0 <= k < |r| ==> 'a' <= r[k] <= 'z' || 'A' <= r[k] <= 'Z'
  {
    match n
    case GoForward => "goForward"
    case GoBackward => "goBackward"
    case Skip => "skip"
    case Cancel => "cancel"
    case Pause => "pause"
    case ReviewInstructions => "reviewInstructions"
  }

  /** True when `s` is the raw value of one of the six navigation cases. */
  ghost predicate IsNavigationName(s: string) {
    exists n: Navigation :: NavigationRawValue(n) == s
  }

  /** The failable decoder of the navigation enum: the case whose raw value is `s`, if any. */
  function NavigationFromRawValue(s: string): (r: Option<Navigation>)
    ensures forall n: Navigation :: NavigationRawValue(n) == s <==> r == Some(n)
  {
    if s == "goForward" then Some(GoForward)
    else if s == "goBackward" then Some(GoBackward)
    else if s == "skip" then Some(Skip)
    else if s == "cancel" then Some(Cancel)
    else if s == "pause" then Some(Pause)
    else if s == "reviewInstructions" then Some(ReviewInstructions)
    else None
  }

  /** The encoder: a navigation action encodes as its case name, a custom action as its payload. */
  function RawValue(b: ButtonType): (r: string)
    ensures b.NavigationAction? ==> NavigationFromRawValue(r) == Some(b.nav)
    ensures b.Custom? ==> r == b.action
  {
    match b
    case NavigationAction(n) => NavigationRawValue(n)
    case Custom(s) => s
  }

  /**
   * The total decoder: a navigation name decodes to that navigation action,
   * every other string to a custom action carrying the string itself.
   */
  function FromRawValue(s: string): (b: ButtonType)
    ensures b.NavigationAction? <==> IsNavigationName(s)
    ensures b.NavigationAction? ==> NavigationRawValue(b.nav) == s
    ensures b.Custom? ==> b.action == s
    ensures RawValue(b) == s
  {
    match NavigationFromRawValue(s)
    case Some(n) => NavigationAction(n)
    case None => Custom(s)
  }

  /** Decoding a string literal is decoding its raw value. */
  function FromStringLiteral(s: string): (b: ButtonType)
    ensures b == FromRawValue(s)
  {
    FromRawValue(s)
  }

  /** The custom action string, present exactly for custom actions. */
  function CustomAction(b: ButtonType): (r: Option<string>)
    ensures r.Some? <==> b.Custom?
    ensures r.Some? ==> r.value == b.action
  {
    match b
    case Custom(s) => Some(s)
    case NavigationAction(_) => None
  }

  /** Encoding after decoding gives back every string (a corollary of `FromRawValue`'s contract, stated on its own). */
  lemma StringRoundTrip(s: string)
    ensures RawValue(FromRawValue(s)) == s
  {
  }

  /** Distinct navigation cases have distinct raw values. */
  lemma NavigationRawValueInjective(m: Navigation, n: Navigation)
    ensures NavigationRawValue(m) == NavigationRawValue(n) <==> m == n
  {
  }

  /**
   * Decoding after encoding gives back every navigation action, and a custom
   * action exactly when its payload is not a navigation name.
   */
  lemma ValueRoundTrip(b: ButtonType)
    ensures FromRawValue(RawValue(b)) == b <==> (b.NavigationAction? || !IsNavigationName(b.action))
  {
  }

  /** A custom action named like a navigation action does not survive the round trip. */
  lemma CustomNavigationNameDecodesAsNavigation(n: Navigation)
    ensures FromRawValue(RawValue(Custom(NavigationRawValue(n)))) == NavigationAction(n)
    ensures FromRawValue(RawValue(Custom(NavigationRawValue(n)))) != Custom(NavigationRawValue(n))
  {
  }

  // ---- CodingKey ----

  /** The coding-key string of a button type is its raw value. */
  function StringValue(b: ButtonType): (r: string)
    ensures r == RawValue(b)
  {
    RawValue(b)
  }

  /** The failable coding-key initialiser from a string never fails. */
  function FromStringValue(s: string): (r: Option<ButtonType>)
    ensures r == Some(FromRawValue(s))
    ensures StringValue(r.value) == s
  {
    Some(FromRawValue(s))
  }

  /** A button type has no integer coding key. */
  function IntValue(b: ButtonType): (r: Option<int>)
    ensures r.None?
  {
    None
  }

  /** No integer builds a button type. */
  function FromIntValue(i: int): (r: Option<ButtonType>)
    ensures r.None?
  {
    None
  }

  // ---- allValues ----

  /** Every navigation case, in declaration order. */
  const AllCases: seq<Navigation> := [GoForward, GoBackward, Skip, Cancel, Pause, ReviewInstructions]

  /** The raw values of `ns`, position by position. */
  function RawValues(ns: seq<Navigation>): (r: seq<string>)
    ensures |r| == |ns|
    ensures forall i :: 0 <= i < |ns| ==> r[i] == NavigationRawValue(ns[i])
  {
    if ns == [] then [] else [NavigationRawValue(ns[0])] + RawValues(ns[1..])
  }

  /** `AllCases` lists every navigation case exactly once. */
  lemma AllCasesComplete(n: Navigation)
    ensures n in AllCases
    ensures forall i, j :: 0 <= i < j < |AllCases| ==> AllCases[i] != AllCases[j]
  {
  }

  /**
   * The documented values of the enum: the six navigation names in
   * declaration order, pairwise distinct, each decoding to a navigation action.
   */
  function AllValues(): (r: seq<string>)
    ensures |r| == 6
    ensures forall i :: 0 <= i < |r| ==> r[i] == NavigationRawValue(AllCases[i])
    ensures forall i, j :: 0 <= i < j < |r| ==> r[i] != r[j]
    ensures forall s :: s in r <==> IsNavigationName(s)
    ensures forall s :: s in r ==> FromRawValue(s).NavigationAction?
  {
    var r := RawValues(AllCases);
    forall i, j | 0 <= i < j < |r| ensures r[i] != r[j] {
      NavigationRawValueInjective(AllCases[i], AllCases[j]);
    }
    forall s | IsNavigationName(s) ensures s in r {
      var n :| NavigationRawValue(n) == s;
      AllCasesComplete(n);
      var k :| 0 <= k < |AllCases| && AllCases[k] == n;
      assert r[k] == s;
    }
    r
  }
}
