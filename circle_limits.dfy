/** Capacity settings of a circle as the circle serializer accepts them: the field bounds on
    `members_limit`, the default of `is_limited`, and the cross-field rule, which differs between
    a full write (POST, PUT) and a partial one (PATCH). */
module CircleLimits {
  import opened Tables

  const MinMembersLimit: int := 10
  const MaxMembersLimit: int := 3200

  datatype HttpMethod = Post | Put | Patch | OtherMethod

  /** The capacity fields of a request; None is an absent field. */
  datatype LimitInput = LimitInput(membersLimit: Option<int>, isLimited: Option<bool>)

  /** A whole circle payload: the capacity fields and the descriptive ones. */
  datatype CircleInput = CircleInput(name: string, slugName: string, about: string, limits: LimitInput)

  datatype LimitError = LimitOutOfRange | LimitMismatch

  /** Python truthiness of `members_limit`: absent and zero are both false. */
  predicate Truthy(v: Option<int>) {
    v.Some? && v.value != 0
  }

  /** `attrs.get('is_limited', False)` */
  predicate LimitedFlag(attrs: LimitInput) {
    attrs.isLimited == Some(true)
  }

  predicate InRange(v: Option<int>) {
    v.Some? ==> MinMembersLimit <= v.value <= MaxMembersLimit
  }

  /** Field stage: `members_limit` must lie in 10..3200 when given, and an absent `is_limited`
      becomes false, except on a partial update, where DRF fills no defaults. */
  function ValidateFields(verb: HttpMethod, input: LimitInput): (r: Result<LimitInput, LimitError>)
    ensures r.Failure? <==> !InRange(input.membersLimit)
    ensures r.Success? ==> r.value.membersLimit == input.membersLimit
    ensures r.Success? && input.isLimited.Some? ==> r.value.isLimited == input.isLimited
    ensures r.Success? && input.isLimited.None? ==> r.value.isLimited == (if verb == Patch then None else Some(false))
  {
    if !InRange(input.membersLimit) then
      Failure(LimitOutOfRange)
    else if input.isLimited.None? && verb != Patch then
      Success(input.(isLimited := Some(false)))
    else
      Success(input)
  }

  /** `CircleModelSerializer.validate`: on POST and PUT the flag must agree with the presence of a
      nonzero limit; on PATCH the stored circle decides what may be changed; any other verb is
      not checked.  Accepted attributes are returned as they came. */
  function CheckLimits(verb: HttpMethod, attrs: LimitInput, stored: Option<Circle>): (r: Result<LimitInput, LimitError>)
    requires verb == Patch ==> stored.Some?
    ensures r.Success? ==> r.value == attrs
    ensures r.Failure? ==> r.error == LimitMismatch
    ensures verb == Post || verb == Put ==> (r.Success? <==> (LimitedFlag(attrs) <==> Truthy(attrs.membersLimit)))
    ensures verb == Patch && Truthy(attrs.membersLimit) && !stored.value.isLimited ==> r.Failure?
    ensures verb == Patch && LimitedFlag(attrs) && stored.value.membersLimit == 0 ==> r.Failure?
    ensures verb == Patch && !Truthy(attrs.membersLimit) && !LimitedFlag(attrs) ==> r.Success?
    ensures verb == Patch ==>
      (r.Success? <==>
        !((Truthy(attrs.membersLimit) && !stored.value.isLimited) || (LimitedFlag(attrs) && stored.value.membersLimit == 0)))
    ensures verb == OtherMethod ==> r.Success?
  {
    match verb
    case Post | Put =>
      // is_limited ^ bool(members_limit)
      if LimitedFlag(attrs) != Truthy(attrs.membersLimit) then Failure(LimitMismatch) else Success(attrs)
    case Patch =>
      var circle := stored.value;
      if (Truthy(attrs.membersLimit) && !circle.isLimited) || (LimitedFlag(attrs) && circle.membersLimit == 0) then
        Failure(LimitMismatch)
      else
        Success(attrs)
    case OtherMethod =>
      Success(attrs)
  }

  /** Field stage, then `validate` (DRF runs `validate` only when every field passed). */
  function ValidateCircle(verb: HttpMethod, input: LimitInput, stored: Option<Circle>): (r: Result<LimitInput, LimitError>)
    requires verb == Patch ==> stored.Some?
    ensures r.Success? ==> InRange(r.value.membersLimit) && r.value.membersLimit == input.membersLimit
    ensures !InRange(input.membersLimit) ==> r == Failure(LimitOutOfRange)
  {
    match ValidateFields(verb, input)
    case Failure(e) => Failure(e)
    case Success(attrs) => CheckLimits(verb, attrs, stored)
  }

  /** The stored circle after a partial update writes the accepted capacity fields. */
  function Patched(stored: Circle, attrs: LimitInput): (c: Circle)
    requires InRange(attrs.membersLimit)
    ensures c.isLimited == (if attrs.isLimited.Some? then attrs.isLimited.value else stored.isLimited)
    ensures c.membersLimit == (if attrs.membersLimit.Some? then attrs.membersLimit.value else stored.membersLimit)
    ensures c.(isLimited := stored.isLimited, membersLimit := stored.membersLimit) == stored
  {
    stored.(
      isLimited := if attrs.isLimited.Some? then attrs.isLimited.value else stored.isLimited,
      membersLimit := if attrs.membersLimit.Some? then attrs.membersLimit.value as nat else stored.membersLimit)
  }

  /** A full write that passes validation yields consistent capacity settings: the circle is
      limited exactly when a limit was given, and that limit lies in 10..3200. */
  lemma FullWriteIsConsistent(verb: HttpMethod, input: LimitInput)
    requires verb == Post || verb == Put
    requires ValidateCircle(verb, input, None).Success?
    ensures var attrs := ValidateCircle(verb, input, None).value;
      && (LimitedFlag(attrs) <==> attrs.membersLimit.Some?)
      && (LimitedFlag(attrs) ==> MinMembersLimit <= attrs.membersLimit.value <= MaxMembersLimit)
      && attrs.isLimited.Some?
  {
  }

  /** A partial update can never leave a circle limited with a zero limit, provided the stored
      circle was not so already. */
  lemma {:induction false} PatchKeepsLimitPositive(input: LimitInput, stored: Circle)
    requires stored.isLimited ==> stored.membersLimit > 0
    requires ValidateCircle(Patch, input, Some(stored)).Success?
    ensures var c := Patched(stored, ValidateCircle(Patch, input, Some(stored)).value);
      c.isLimited ==> c.membersLimit > 0
  {
    var attrs := ValidateFields(Patch, input).value;
    assert CheckLimits(Patch, attrs, Some(stored)).Success?;
    if attrs.isLimited == Some(true) {
      assert stored.membersLimit != 0;
    }
  }

  /** A partial update that raises the limit of a limited circle is accepted. */
  lemma PatchMayRaiseLimit()
    ensures var stored := Circle("s", "n", "", true, 50, 0, 0);
      var input := LimitInput(Some(100), Some(true));
      && ValidateCircle(Patch, input, Some(stored)).Success?
      && var c := Patched(stored, ValidateCircle(Patch, input, Some(stored)).value);
         c.isLimited && c.membersLimit == 100
  {
  }

  /** A partial update cannot turn an unlimited circle into a limited one with a new limit: a
      nonzero `members_limit` is refused whenever the stored circle is not limited. */
  lemma PatchCannotLimitUnlimited(input: LimitInput, stored: Circle)
    requires !stored.isLimited && input.membersLimit.Some?
    ensures ValidateCircle(Patch, input, Some(stored)).Failure?
  {
  }

  /** The partial-update rule does not keep "limited exactly when the limit is positive": a
      limited circle can drop its flag and keep its limit. */
  lemma PatchMayUnsetFlagAlone()
    ensures var stored := Circle("s", "n", "", true, 50, 0, 0);
      var input := LimitInput(None, Some(false));
      && ValidateCircle(Patch, input, Some(stored)).Success?
      && var c := Patched(stored, ValidateCircle(Patch, input, Some(stored)).value);
         !c.isLimited && c.membersLimit == 50
  {
  }
}
