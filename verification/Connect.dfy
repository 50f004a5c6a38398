/** The address a build pins: the choice inside `build_http_client`. */
module Connect {
  import opened Base
  import opened Registry

  function FirstPublic(answers: seq<Address>, isPrivate: Address -> bool): (r: Option<Address>)
    ensures r.None? <==> forall i :: 0 <= i < |answers| ==> isPrivate(answers[i])
    ensures r.Some? ==> exists i :: 0 <= i < |answers| && answers[i] == r.value && !isPrivate(answers[i])
                                 && forall j :: 0 <= j < i ==> isPrivate(answers[j])
  {
    if answers == [] then None
    else if !isPrivate(answers[0]) then Some(answers[0])
    else
      var r := FirstPublic(answers[1..], isPrivate);
      assert answers == [answers[0]] + answers[1..];
      assert r.Some? ==>
          var i :| 0 <= i < |answers[1..]| && answers[1..][i] == r.value && !isPrivate(answers[1..][i])
                && forall j :: 0 <= j < i ==> isPrivate(answers[1..][j]);
          answers[i + 1] == r.value && forall j :: 0 <= j < i + 1 ==> isPrivate(answers[j]);
      r
  }

  /** Answer `i` is allowed and no answer before it is. */
  predicate FirstAllowed(answers: seq<Address>, allowPrivate: bool, isPrivate: Address -> bool, i: nat)
    requires i < |answers|
  {
    (allowPrivate || !isPrivate(answers[i])) && forall j :: 0 <= j < i ==> !allowPrivate && isPrivate(answers[j])
  }

  /**
   The first answer the rebinding guard allows; without the guard that is the first answer. `None`
   when the lookup was empty, or the guard rejects every answer.
   */
  function ChooseAddress(answers: seq<Address>, allowPrivate: bool, isPrivate: Address -> bool)
    : (r: Option<Address>)
    ensures forall i :: 0 <= i < |answers| && FirstAllowed(answers, allowPrivate, isPrivate, i) ==>
              r == Some(answers[i])
    ensures r.Some? ==> r.value in answers && (allowPrivate || !isPrivate(r.value))
    ensures r.None? <==> answers == [] || (!allowPrivate && forall a :: a in answers ==> isPrivate(a))
  {
    if answers == [] then None
    else if allowPrivate then Some(answers[0])
    else
      assert forall a :: a in answers ==> exists i :: 0 <= i < |answers| && answers[i] == a;
      FirstPublic(answers, isPrivate)
  }
}
