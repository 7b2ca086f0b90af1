/** PersonaContext: the state a persona-policy mutation carries between its
    steps. The flags start false; the policy-type flags are only ever set,
    and `updateIsAllow` records whether an update flips a policy between
    allow and deny. */
module PersonaContext {
  import opened Wrappers
  import AccessControlUtil

  /** Constants.java is not part of this model; these are the type names
      Atlas gives persona policies. */
  const PERSONA_METADATA_POLICY_ENTITY_TYPE := "PersonaMetadataPolicy"
  const PERSONA_GLOSSARY_POLICY_ENTITY_TYPE := "PersonaGlossaryPolicy"

  /** A policy entity as the context sees it: its type name, and its
      `isAllowPolicy` attribute (null when unset). */
  datatype PolicyEntity = PolicyEntity(typeName: Option<string>, isAllowPolicy: Option<bool>)

  datatype Context = Context(
    personaPolicy: Option<PolicyEntity>,
    existingPersonaPolicy: Option<PolicyEntity>,
    isAllowPolicy: bool,
    updateIsAllow: bool,
    isMetadataPolicy: bool,
    isGlossaryPolicy: bool,
    excessExistingRangerPolicies: seq<AccessControlUtil.RangerPolicy>)

  /** `new PersonaContext(ext, policy)` followed by the setters for the
      existing policy and the allow flag. */
  function NewContext(personaPolicy: Option<PolicyEntity>, existing: Option<PolicyEntity>, isAllowPolicy: bool): (r: Context)
    ensures !r.updateIsAllow && !r.isMetadataPolicy && !r.isGlossaryPolicy && r.excessExistingRangerPolicies == []
    ensures r.personaPolicy == personaPolicy && r.existingPersonaPolicy == existing && r.isAllowPolicy == isAllowPolicy
  {
    Context(personaPolicy, existing, isAllowPolicy, false, false, false, [])
  }

  /** `setAllowPolicyUpdate`: with an existing policy, whether its allow
      flag differs from the new one; reading an unset flag fails as the
      unboxing would. Nothing else changes. */
  function SetAllowPolicyUpdate(c: Context): (r: Result<Context>)
    ensures c.existingPersonaPolicy.None? ==> r == Success(c)
    ensures c.existingPersonaPolicy.Some? ==> (r.Failure? <==> c.existingPersonaPolicy.value.isAllowPolicy.None?)
    ensures r.Failure? ==> r.error == NullPointer
    ensures r.Success? && c.existingPersonaPolicy.Some? ==>
      r.value == c.(updateIsAllow := c.existingPersonaPolicy.value.isAllowPolicy.value != c.isAllowPolicy)
  {
    match c.existingPersonaPolicy
    case None => Success(c)
    case Some(existing) =>
      :- Need(existing.isAllowPolicy.Some?, NullPointer);
      Success(c.(updateIsAllow := existing.isAllowPolicy.value != c.isAllowPolicy))
  }

  predicate PolicyTypeIs(c: Context, typeName: string) {
    c.personaPolicy.Some? && c.personaPolicy.value.typeName == Some(typeName)
  }

  /** `setPolicyType`: the flag matching the policy's type name is set;
      no flag is ever cleared. A switch on a null type name fails. */
  function SetPolicyType(c: Context): (r: Result<Context>)
    ensures c.personaPolicy.None? ==> r == Success(c)
    ensures c.personaPolicy.Some? ==> (r.Failure? <==> c.personaPolicy.value.typeName.None?)
    ensures r.Failure? ==> r.error == NullPointer
    ensures r.Success? ==> (
      && r.value == c.(isMetadataPolicy := r.value.isMetadataPolicy, isGlossaryPolicy := r.value.isGlossaryPolicy)
      && (r.value.isMetadataPolicy <==> c.isMetadataPolicy || PolicyTypeIs(c, PERSONA_METADATA_POLICY_ENTITY_TYPE))
      && (r.value.isGlossaryPolicy <==> c.isGlossaryPolicy || PolicyTypeIs(c, PERSONA_GLOSSARY_POLICY_ENTITY_TYPE)))
  {
    match c.personaPolicy
    case None => Success(c)
    case Some(policy) =>
      :- Need(policy.typeName.Some?, NullPointer);
      var t := policy.typeName.value;
      if t == PERSONA_METADATA_POLICY_ENTITY_TYPE then Success(c.(isMetadataPolicy := true))
      else if t == PERSONA_GLOSSARY_POLICY_ENTITY_TYPE then Success(c.(isGlossaryPolicy := true))
      else Success(c)
  }

  /** `addExcessExistingRangerPolicy`: appends, keeping earlier entries. */
  function AddExcessExistingRangerPolicy(c: Context, p: AccessControlUtil.RangerPolicy): (r: Context)
    ensures |r.excessExistingRangerPolicies| == |c.excessExistingRangerPolicies| + 1
    ensures r.excessExistingRangerPolicies[..|c.excessExistingRangerPolicies|] == c.excessExistingRangerPolicies
    ensures r.excessExistingRangerPolicies[|c.excessExistingRangerPolicies|] == p
    ensures r.(excessExistingRangerPolicies := c.excessExistingRangerPolicies) == c
  {
    c.(excessExistingRangerPolicies := c.excessExistingRangerPolicies + [p])
  }

  /** Adding several policies one by one. */
  function AddAll(c: Context, ps: seq<AccessControlUtil.RangerPolicy>): Context
    decreases |ps|
  {
    if |ps| == 0 then c else AddAll(AddExcessExistingRangerPolicy(c, ps[0]), ps[1..])
  }

  /** Adding policies one by one lists them after the earlier ones, in
      the order added. */
  lemma {:induction false} AddAllAppends(c: Context, ps: seq<AccessControlUtil.RangerPolicy>)
    ensures AddAll(c, ps) == c.(excessExistingRangerPolicies := c.excessExistingRangerPolicies + ps)
    decreases |ps|
  {
    if |ps| > 0 {
      AddAllAppends(AddExcessExistingRangerPolicy(c, ps[0]), ps[1..]);
      assert c.excessExistingRangerPolicies + [ps[0]] + ps[1..] == c.excessExistingRangerPolicies + ps;
    }
  }

  /** Setting the type twice is the same as once; a fresh context ends up
      with at most one of the two type flags. */
  lemma SetPolicyTypeIdempotent(c: Context)
    requires SetPolicyType(c).Success?
    ensures SetPolicyType(SetPolicyType(c).value) == SetPolicyType(c)
  {
  }

  lemma FreshContextOneType(policy: PolicyEntity, existing: Option<PolicyEntity>, isAllowPolicy: bool)
    requires policy.typeName.Some?
    ensures var r := SetPolicyType(NewContext(Some(policy), existing, isAllowPolicy));
      r.Success? && !(r.value.isMetadataPolicy && r.value.isGlossaryPolicy)
  {
  }

  /** The update flag compares the stored and the new allow flag: an
      update that keeps the flag is never marked as flipping it. */
  lemma UpdateIsAllowIffFlipped(existing: PolicyEntity, personaPolicy: Option<PolicyEntity>, isAllowPolicy: bool)
    requires existing.isAllowPolicy.Some?
    ensures var r := SetAllowPolicyUpdate(NewContext(personaPolicy, Some(existing), isAllowPolicy));
      r.Success? && (r.value.updateIsAllow <==> existing.isAllowPolicy.value != isAllowPolicy)
  {
  }
}
