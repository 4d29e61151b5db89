/**
 * `LoadTrackerHub.JoinGroup`: a signed-in connection asks to receive the
 * change notifications of one customer and month. Customer sessions may
 * only join their own customer's groups, employee sessions only the
 * customer they have selected; the group joined is
 * `cust:{customerCode}:{yyyymm}`.
 */
module Hub {
  import opened Wrappers
  import opened Text

  /** A claim of the signed-in user. */
  datatype Claim = Claim(claimType: string, value: string)

  /** The connection's user: null, or the claims of all its identities in order. */
  type User = Option<seq<Claim>>

  datatype HubError = NotAllowed

  /**
   * `ClaimsPrincipal.FindFirst(type)?.Value`: the value of the first claim
   * whose type equals `claimType` ignoring case; null when there is none
   * or there is no user.
   */
  function FindFirst(user: User, claimType: string): (r: Option<string>)
    ensures r.Some? <==> user.Some? && exists i :: 0 <= i < |user.value| && EqualsIgnoreCase(user.value[i].claimType, claimType)
  {
    if user.None? then None else FindIn(user.value, claimType)
  }

  /** The value of the first claim of `claims` with the given type, ignoring case. */
  function FindIn(claims: seq<Claim>, claimType: string): (r: Option<string>)
    ensures r.Some? <==> exists i :: 0 <= i < |claims| && EqualsIgnoreCase(claims[i].claimType, claimType)
    ensures r.Some? ==> exists i :: && 0 <= i < |claims| && EqualsIgnoreCase(claims[i].claimType, claimType)
                                    && claims[i].value == r.value
                                    && forall j :: 0 <= j < i ==> !EqualsIgnoreCase(claims[j].claimType, claimType)
  {
    if claims == [] then None
    else if EqualsIgnoreCase(claims[0].claimType, claimType) then Some(claims[0].value)
    else
      var r := FindIn(claims[1..], claimType);
      assert forall i :: 0 < i < |claims| ==> claims[i] == claims[1..][i - 1];
      r
  }

  /** `$"cust:{customerCode}:{yyyymm}"`; a null argument interpolates as nothing. */
  function GroupName(customerCode: Option<string>, yyyymm: Option<string>): string {
    "cust:" + customerCode.GetOr("") + ":" + yyyymm.GetOr("")
  }

  /**
   * The check the session's kind demands: for `Customer` the
   * `CustomerCode` claim, for `Employee` the `SelectedCustomerCode` claim
   * must equal the requested code ignoring case; any other kind passes.
   */
  predicate Allowed(user: User, customerCode: Option<string>) {
    var authType := FindFirst(user, "AuthType");
    && (authType == Some("Customer") ==> NullableEqualsIgnoreCase(FindFirst(user, "CustomerCode"), customerCode))
    && (authType == Some("Employee") ==> NullableEqualsIgnoreCase(FindFirst(user, "SelectedCustomerCode"), customerCode))
  }

  /**
   * `JoinGroup`: the group the connection joins, or the `HubException`
   * that refuses it. The arguments come from the client and may be null.
   */
  function JoinGroup(user: User, customerCode: Option<string>, yyyymm: Option<string>): (r: Result<string, HubError>)
    ensures r.Ok? <==> Allowed(user, customerCode)
    ensures r.Ok? ==> r.value == GroupName(customerCode, yyyymm)
  {
    var authType := FindFirst(user, "AuthType");
    if authType == Some("Customer") && !NullableEqualsIgnoreCase(FindFirst(user, "CustomerCode"), customerCode) then
      Err(NotAllowed)
    else if authType == Some("Employee") && !NullableEqualsIgnoreCase(FindFirst(user, "SelectedCustomerCode"), customerCode) then
      Err(NotAllowed)
    else
      Ok(GroupName(customerCode, yyyymm))
  }

  /** A customer session joins exactly the groups of the code its claim carries, in any letter case. */
  lemma CustomerSessionJoinsOwnCode(user: User, code: string, yyyymm: Option<string>)
    requires FindFirst(user, "AuthType") == Some("Customer")
    ensures JoinGroup(user, Some(code), yyyymm).Ok? <==>
              FindFirst(user, "CustomerCode").Some? && EqualsIgnoreCase(FindFirst(user, "CustomerCode").value, code)
  {
  }

  /** An employee session joins exactly the groups of the customer it has selected. */
  lemma EmployeeSessionJoinsSelectedCode(user: User, code: string, yyyymm: Option<string>)
    requires FindFirst(user, "AuthType") == Some("Employee")
    ensures JoinGroup(user, Some(code), yyyymm).Ok? <==>
              FindFirst(user, "SelectedCustomerCode").Some?
              && EqualsIgnoreCase(FindFirst(user, "SelectedCustomerCode").value, code)
  {
  }

  /** Any other kind of session, or none, joins whatever group it asks for. */
  lemma OtherSessionJoinsAnyGroup(user: User, code: Option<string>, yyyymm: Option<string>)
    requires FindFirst(user, "AuthType") != Some("Customer") && FindFirst(user, "AuthType") != Some("Employee")
    ensures JoinGroup(user, code, yyyymm) == Ok(GroupName(code, yyyymm))
  {
  }

  /** The kind of session is compared exactly: "customer" is not a customer session. */
  lemma AuthTypeIsCaseSensitive(code: string)
    ensures JoinGroup(Some([Claim("AuthType", "customer")]), Some(code), Some("202601")).Ok?
  {
    assert FindFirst(Some([Claim("AuthType", "customer")]), "AuthType") == Some("customer");
  }

  /** A null customer code is let through by a customer session that has no code claim. */
  lemma NullCodeMatchesMissingClaim(yyyymm: Option<string>)
    ensures JoinGroup(Some([Claim("AuthType", "Customer")]), None, yyyymm) == Ok("cust::" + yyyymm.GetOr(""))
  {
    var user: User := Some([Claim("AuthType", "Customer")]);
    assert FindFirst(user, "AuthType") == Some("Customer");
    assert !EqualsIgnoreCase("AuthType", "CustomerCode");
    assert FindFirst(user, "CustomerCode") == None;
    assert GroupName(None, yyyymm) == "cust::" + yyyymm.GetOr("");
  }

  // ---------------------------------------------------------------------
  // Reading a group name back

  /** The index of the first `:` in `s`, or `|s|` when there is none. */
  function ColonIndex(s: string): (k: nat)
    ensures k <= |s| && ':' !in s[..k]
    ensures k < |s| ==> s[k] == ':'
  {
    if s == [] || s[0] == ':' then 0
    else
      var k := ColonIndex(s[1..]);
      assert s[..k + 1] == [s[0]] + s[1..][..k];
      k + 1
  }

  /** The customer code and month a group name was made from, splitting at the first `:` after the prefix. */
  function ParseGroupName(g: string): Option<(string, string)> {
    if |g| < 5 || g[..5] != "cust:" then None
    else
      var rest := g[5..];
      var k := ColonIndex(rest);
      if k == |rest| then None else Some((rest[..k], rest[k + 1..]))
  }

  /** Codes without a `:` can be read back from the group name, with the month. */
  lemma GroupNameRoundTrip(code: string, yyyymm: string)
    requires ':' !in code
    ensures ParseGroupName(GroupName(Some(code), Some(yyyymm))) == Some((code, yyyymm))
  {
    var g := GroupName(Some(code), Some(yyyymm));
    assert g[..5] == "cust:";
    var rest := g[5..];
    assert rest == code + (":" + yyyymm);
    ColonAfterPrefix(code, ":" + yyyymm);
    assert rest[..|code|] == code;
    assert rest[|code| + 1..] == yyyymm;
  }

  /** The first `:` of `a + b`, when `a` has none and `b` starts with one, is at `|a|`. */
  lemma {:induction false} ColonAfterPrefix(a: string, b: string)
    requires ':' !in a && b != [] && b[0] == ':'
    ensures ColonIndex(a + b) == |a|
  {
    if a != [] {
      assert (a + b)[1..] == a[1..] + b;
      ColonAfterPrefix(a[1..], b);
    }
  }

  /** A `:` in the code makes two different requests share a group. */
  lemma GroupNamesCollide()
    ensures GroupName(Some("A:B"), Some("202601")) == GroupName(Some("A"), Some("B:202601"))
  {
  }
}
