/**
 * The decision and string rules of the web application's authentication
 * startup (class `Startup`, method `ConfigureAuth`): normalising the Azure AD
 * instance URL and building the authority from it, parsing the `ValidUpns`
 * allow-list, the UPN sign-in gate run on `SecurityTokenValidated`, and the
 * `RedirectToIdentityProvider` rule that forces an interactive login prompt.
 * Configuration settings are inputs; a missing setting is `None`.
 */
module StartupAuth {
  import opened Wrappers
  import opened NetStrings

  // ---------------------------------------------------------------------------
  // Authority
  // ---------------------------------------------------------------------------

  /** `EnsureTrailingSlash`: a null value counts as empty; a trailing "/" is added when missing. */
  function EnsureTrailingSlash(value: Option<string>): (r: string)
    ensures EndsWith(r, "/")
    ensures value.None? ==> r == "/"
    ensures value.Some? ==> value.value <= r
    ensures value.Some? && EndsWith(value.value, "/") ==> r == value.value
    ensures value.Some? && !EndsWith(value.value, "/") ==> |r| == |value.value| + 1
  {
    var v := if value.None? then "" else value.value;
    if !EndsWith(v, "/") then v + "/" else v
  }

  /** Normalising twice is normalising once. */
  lemma EnsureTrailingSlashIdempotent(value: Option<string>)
    ensures EnsureTrailingSlash(Some(EnsureTrailingSlash(value))) == EnsureTrailingSlash(value)
  {
  }

  /** C# `string + string` treats a null operand as the empty string. */
  function OrEmpty(s: Option<string>): string {
    if s.None? then "" else s.value
  }

  /**
   * `authority = aadInstance + tenantId`, where `aadInstance` is already
   * normalised: the instance setting comes first, the tenant id last, with a
   * "/" just before it and at most that one character added in between.
   */
  function Authority(aadInstance: Option<string>, tenantId: Option<string>): (r: string)
    ensures OrEmpty(aadInstance) <= r
    ensures EndsWith(r, OrEmpty(tenantId))
    ensures |r| > |OrEmpty(tenantId)| && r[|r| - |OrEmpty(tenantId)| - 1] == '/'
    ensures |r| <= |OrEmpty(aadInstance)| + 1 + |OrEmpty(tenantId)|
  {
    EnsureTrailingSlash(aadInstance) + OrEmpty(tenantId)
  }

  /**
   * The authority is the instance setting followed by the tenant id; a "/" is
   * put between them only when the instance does not already end in one
   * (so "https://x//" keeps both of its slashes).
   */
  lemma AuthorityShape(aadInstance: string, tenantId: Option<string>)
    ensures var a := Authority(Some(aadInstance), tenantId);
      if EndsWith(aadInstance, "/") then a == aadInstance + OrEmpty(tenantId)
      else a == aadInstance + "/" + OrEmpty(tenantId)
  {
    var n := EnsureTrailingSlash(Some(aadInstance));
    if !EndsWith(aadInstance, "/") {
      assert n == n[..|aadInstance|] + [n[|n| - 1]];
      assert n == aadInstance + "/";
    }
  }

  /** A missing instance setting gives an authority of "/" followed by the tenant id. */
  lemma AuthorityWithoutInstance(tenantId: Option<string>)
    ensures Authority(None, tenantId) == "/" + OrEmpty(tenantId)
  {
  }

  // ---------------------------------------------------------------------------
  // The ValidUpns allow-list
  // ---------------------------------------------------------------------------

  const UpnSeparator: char := ';'

  /** `.Select(s => s.Trim())`: every entry is trimmed, and trimming adds no separator. */
  function TrimEach(pieces: seq<string>): (r: seq<string>)
    ensures |r| == |pieces|
    ensures forall i :: 0 <= i < |r| ==> r[i] == Trim(pieces[i])
    ensures forall i :: 0 <= i < |r| ==>
      NoOuterWhiteSpace(r[i]) && (UpnSeparator !in pieces[i] ==> UpnSeparator !in r[i])
  {
    TrimEachKeepsOut(pieces, UpnSeparator);
    seq(|pieces|, i requires 0 <= i < |pieces| => Trim(pieces[i]))
  }

  /** The `TrimKeepsOut` fact for every piece at once. */
  lemma TrimEachKeepsOut(pieces: seq<string>, c: char)
    ensures forall i :: 0 <= i < |pieces| ==> c !in pieces[i] ==> c !in Trim(pieces[i])
  {
    forall i | 0 <= i < |pieces| {
      TrimKeepsOut(pieces[i], c);
    }
  }

  /**
   * `ValidUpns?.Split(';', RemoveEmptyEntries)?.Select(s => s.Trim()) ?? new string[0]`.
   * Empty pieces are removed BEFORE trimming, so a white-space-only piece
   * survives as an empty entry.
   */
  function ParseValidUpns(setting: Option<string>): (upns: seq<string>)
    ensures setting.None? ==> upns == []
    ensures forall i :: 0 <= i < |upns| ==> UpnSeparator !in upns[i] && NoOuterWhiteSpace(upns[i])
  {
    match setting
    case None => []
    case Some(s) =>
      SplitPiecesExcludeSeparator(s, UpnSeparator);
      TrimEach(RemoveEmpty(Split(s, UpnSeparator)))
  }

  /**
   * Entries keep the order of the pieces they come from: the entries of
   * `a;b` are those of `a` followed by those of `b`.
   */
  lemma ParseValidUpnsConcat(a: string, b: string)
    ensures ParseValidUpns(Some(a + [UpnSeparator] + b)) == ParseValidUpns(Some(a)) + ParseValidUpns(Some(b))
  {
    var sa, sb := Split(a, UpnSeparator), Split(b, UpnSeparator);
    SplitConcat(a, b, UpnSeparator);
    RemoveEmptyAppend(sa, sb);
  }

  /** A setting without ';' is one piece: no entry when it is empty, else its trimmed form. */
  lemma ParseValidUpnsPiece(p: string)
    requires UpnSeparator !in p
    ensures ParseValidUpns(Some(p)) == if p == "" then [] else [Trim(p)]
  {
    SplitNoSeparator(p, UpnSeparator);
    assert RemoveEmpty([p]) == if p == "" then [] else [p];
  }

  /** Regrouping `a;w;b` as `a;(w;b)`. */
  lemma Regroup(a: string, w: string, b: string)
    ensures a + [UpnSeparator] + w + [UpnSeparator] + b == a + [UpnSeparator] + (w + [UpnSeparator] + b)
  {
  }

  /**
   * A white-space-only piece between two separators becomes an empty-string
   * entry at its position: it is not empty when empty pieces are removed, and
   * only then is it trimmed.
   */
  lemma ParseKeepsBlankEntry(a: string, w: string, b: string)
    requires |w| > 0 && AllWhiteSpace(w)
    ensures ParseValidUpns(Some(a + [UpnSeparator] + w + [UpnSeparator] + b))
         == ParseValidUpns(Some(a)) + ([""] + ParseValidUpns(Some(b)))
  {
    Regroup(a, w, b);
    ParseValidUpnsConcat(a, w + [UpnSeparator] + b);
    ParseValidUpnsConcat(w, b);
    assert UpnSeparator !in w by {
      assert !IsWhiteSpace(UpnSeparator);
    }
    ParseValidUpnsPiece(w);
    TrimAllWhiteSpace(w);
  }

  /** An empty piece (two adjacent separators) contributes no entry. */
  lemma ParseDropsEmptyPiece(a: string, b: string)
    ensures ParseValidUpns(Some(a + [UpnSeparator] + [] + [UpnSeparator] + b))
         == ParseValidUpns(Some(a)) + ParseValidUpns(Some(b))
  {
    Regroup(a, [], b);
    ParseValidUpnsConcat(a, [] + [UpnSeparator] + b);
    ParseValidUpnsConcat([], b);
    ParseValidUpnsPiece([]);
  }

  /** A clean entry written on its own gives that entry. */
  lemma ParseSingleEntry(u: string)
    requires u != "" && UpnSeparator !in u && NoOuterWhiteSpace(u)
    ensures ParseValidUpns(Some(u)) == [u]
  {
    ParseValidUpnsPiece(u);
    TrimAround([], u, []);
    assert [] + u + [] == u;
  }

  /** A clean entry with one space on each side gives that entry. */
  lemma ParsePaddedEntry(u: string)
    requires u != "" && UpnSeparator !in u && NoOuterWhiteSpace(u)
    ensures ParseValidUpns(Some([' '] + u + [' '])) == [u]
  {
    var p := [' '] + u + [' '];
    assert UpnSeparator !in p by {
      forall i | 0 <= i < |p| ensures p[i] != UpnSeparator {
        if 0 < i < |p| - 1 { assert p[i] == u[i - 1]; }
      }
    }
    ParseValidUpnsPiece(p);
    TrimAround([' '], u, [' ']);
  }

  /**
   * A list written as `u1; u2 ;` (a space after the first separator, a space
   * and a final separator after the second entry) gives exactly `[u1, u2]`:
   * the trailing empty piece is dropped and the spaces are trimmed.
   */
  lemma ParseValidUpnsSpacedList(u1: string, u2: string)
    requires u1 != "" && u2 != ""
    requires UpnSeparator !in u1 && UpnSeparator !in u2
    requires NoOuterWhiteSpace(u1) && NoOuterWhiteSpace(u2)
    ensures ParseValidUpns(Some(u1 + [UpnSeparator, ' '] + u2 + [' ', UpnSeparator])) == [u1, u2]
  {
    var p2 := [' '] + u2 + [' '];
    SpacedRegroup(u1, u2);
    ParseSingleEntry(u1);
    ParsePaddedEntry(u2);
    ParseValidUpnsPiece([]);
    ParseValidUpnsConcat(p2, []);
    ParseValidUpnsConcat(u1, p2 + [UpnSeparator] + []);
  }

  /** Regrouping `u1; u2 ;` as `u1;( u2 ;)`. */
  lemma SpacedRegroup(u1: string, u2: string)
    ensures u1 + [UpnSeparator, ' '] + u2 + [' ', UpnSeparator]
         == u1 + [UpnSeparator] + ([' '] + u2 + [' '] + [UpnSeparator] + [])
  {
  }

  /** `"a@x.com; b@y.com ;"` gives exactly `a@x.com` and `b@y.com`. */
  lemma ParseValidUpnsExample()
    ensures ParseValidUpns(Some("a@x.com; b@y.com ;")) == ["a@x.com", "b@y.com"]
  {
    assert "a@x.com; b@y.com ;" == "a@x.com" + [UpnSeparator, ' '] + "b@y.com" + [' ', UpnSeparator];
    ParseValidUpnsSpacedList("a@x.com", "b@y.com");
  }

  // ---------------------------------------------------------------------------
  // The UPN sign-in gate (SecurityTokenValidated)
  // ---------------------------------------------------------------------------

  /** `System.IdentityModel.Claims.ClaimTypes.Upn`. */
  const UpnClaimType: string := "http://schemas.xmlsoap.org/ws/2005/05/identity/claims/upn"

  /** Where a refused user is sent. */
  const InvalidUserPath: string := "/Account/InvalidUser"

  /** A claim; .NET never lets a claim's value be null. */
  datatype Claim = Claim(claimType: string, value: string)

  datatype ClaimsIdentity = ClaimsIdentity(claims: seq<Claim>)

  datatype AuthenticationTicket = AuthenticationTicket(identity: Option<ClaimsIdentity>)

  /** `claims[k]` is the first claim whose type is UPN. */
  ghost predicate IsFirstUpnAt(claims: seq<Claim>, k: int) {
    0 <= k < |claims| && claims[k].claimType == UpnClaimType
    && forall j :: 0 <= j < k ==> claims[j].claimType != UpnClaimType
  }

  /** `claims.FirstOrDefault(c => c.Type == ClaimTypes.Upn)`. */
  function FirstUpnClaim(claims: seq<Claim>): (c: Option<Claim>)
    ensures c.None? <==> forall i :: 0 <= i < |claims| ==> claims[i].claimType != UpnClaimType
    ensures c.Some? ==> exists k :: IsFirstUpnAt(claims, k) && c.value == claims[k]
  {
    if |claims| == 0 then None
    else if claims[0].claimType == UpnClaimType then
      assert IsFirstUpnAt(claims, 0);
      Some(claims[0])
    else
      var c := FirstUpnClaim(claims[1..]);
      assert c.Some? ==> exists k :: IsFirstUpnAt(claims, k) && c.value == claims[k] by {
        if c.Some? {
          var k :| IsFirstUpnAt(claims[1..], k) && c.value == claims[1..][k];
          assert IsFirstUpnAt(claims, k + 1);
        }
      }
      assert c.None? ==> forall i :: 0 <= i < |claims| ==> claims[i].claimType != UpnClaimType by {
        if c.None? {
          forall i | 0 < i < |claims| ensures claims[i].claimType != UpnClaimType {
            assert claims[i] == claims[1..][i - 1];
          }
        }
      }
      c
  }

  /** Only one index can be the first UPN claim. */
  lemma FirstUpnAtUnique(claims: seq<Claim>, k1: int, k2: int)
    requires IsFirstUpnAt(claims, k1) && IsFirstUpnAt(claims, k2)
    ensures k1 == k2
  {
  }

  /** Wherever the first UPN claim sits, `FirstUpnClaim` returns that claim. */
  lemma FirstUpnClaimAt(claims: seq<Claim>)
    ensures forall k :: IsFirstUpnAt(claims, k) ==> FirstUpnClaim(claims) == Some(claims[k])
  {
    forall k | IsFirstUpnAt(claims, k) ensures FirstUpnClaim(claims) == Some(claims[k]) {
      var k' :| IsFirstUpnAt(claims, k') && FirstUpnClaim(claims).value == claims[k'];
      FirstUpnAtUnique(claims, k, k');
    }
  }

  /** `context?.AuthenticationTicket?.Identity?.Claims`: absent when any link of the chain is null. */
  function ClaimsOf(ticket: Option<AuthenticationTicket>): (claims: Option<seq<Claim>>)
    ensures claims.Some? <==> ticket.Some? && ticket.value.identity.Some?
    ensures claims.Some? ==> claims.value == ticket.value.identity.value.claims
  {
    if ticket.Some? && ticket.value.identity.Some? then Some(ticket.value.identity.value.claims) else None
  }

  /**
   * `upnClaim?.Value`: present exactly when the identity has claims and one
   * of them is a UPN claim, and then the value of the first such claim.
   */
  function UpnOf(ticket: Option<AuthenticationTicket>): (upn: Option<string>)
    ensures upn.Some? <==> ClaimsOf(ticket).Some? && exists k :: IsFirstUpnAt(ClaimsOf(ticket).value, k)
    ensures forall k :: ClaimsOf(ticket).Some? && IsFirstUpnAt(ClaimsOf(ticket).value, k) ==>
      upn == Some(ClaimsOf(ticket).value[k].value)
  {
    match ClaimsOf(ticket)
    case None => None
    case Some(claims) =>
      match FirstUpnClaim(claims)
      case None =>
        assert forall k :: !IsFirstUpnAt(claims, k);
        None
      case Some(c) =>
        FirstUpnClaimAt(claims);
        Some(c.value)
  }

  datatype Decision = Continue | Deny

  /** The gate: deny when there is no UPN or it matches no allow-list entry ignoring case. */
  function Decide(ticket: Option<AuthenticationTicket>, validUpns: seq<string>): (d: Decision)
    ensures d == Continue <==>
      (UpnOf(ticket).Some? && exists i :: 0 <= i < |validUpns| && EqualsIgnoreCase(validUpns[i], UpnOf(ticket).value))
  {
    var upn := UpnOf(ticket);
    if upn.None? || !ContainsIgnoreCase(validUpns, upn.value) then Deny else Continue
  }

  /**
   * Sign-in continues exactly when the identity has claims, the first UPN
   * claim among them equals some allow-list entry ignoring case.
   */
  lemma SignInContinuesIff(ticket: Option<AuthenticationTicket>, validUpns: seq<string>)
    ensures Decide(ticket, validUpns) == Continue <==>
      ClaimsOf(ticket).Some? &&
      exists k, i :: IsFirstUpnAt(ClaimsOf(ticket).value, k) && 0 <= i < |validUpns|
        && EqualsIgnoreCase(validUpns[i], ClaimsOf(ticket).value[k].value)
  {
    if ClaimsOf(ticket).Some? {
      var claims := ClaimsOf(ticket).value;
      var c := FirstUpnClaim(claims);
      if c.Some? {
        var k :| IsFirstUpnAt(claims, k) && c.value == claims[k];
        forall k' | IsFirstUpnAt(claims, k') ensures k' == k {
          FirstUpnAtUnique(claims, k, k');
        }
      } else {
        forall k | 0 <= k < |claims| ensures !IsFirstUpnAt(claims, k) {
          assert claims[k].claimType != UpnClaimType;
        }
      }
    }
  }

  /** No claims, or no UPN claim among them: sign-in is refused. */
  lemma SignInDeniedWithoutUpn(ticket: Option<AuthenticationTicket>, validUpns: seq<string>)
    requires ClaimsOf(ticket).None?
      || forall i :: 0 <= i < |ClaimsOf(ticket).value| ==> ClaimsOf(ticket).value[i].claimType != UpnClaimType
    ensures Decide(ticket, validUpns) == Deny
  {
  }

  /** An empty allow-list (in particular a missing `ValidUpns` setting) refuses everyone. */
  lemma EmptyAllowListDeniesAll(ticket: Option<AuthenticationTicket>)
    ensures Decide(ticket, ParseValidUpns(None)) == Deny
    ensures Decide(ticket, []) == Deny
  {
  }

  function TicketWith(claims: seq<Claim>): Option<AuthenticationTicket> {
    Some(AuthenticationTicket(Some(ClaimsIdentity(claims))))
  }

  /** Once a UPN claim has been seen, the claims after it have no effect on the decision. */
  lemma OnlyFirstUpnDecides(claims: seq<Claim>, later: seq<Claim>, validUpns: seq<string>)
    requires exists i :: 0 <= i < |claims| && claims[i].claimType == UpnClaimType
    ensures Decide(TicketWith(claims + later), validUpns) == Decide(TicketWith(claims), validUpns)
  {
    var c := FirstUpnClaim(claims);
    var k :| IsFirstUpnAt(claims, k) && c.value == claims[k];
    assert IsFirstUpnAt(claims + later, k);
    assert UpnOf(TicketWith(claims + later)) == UpnOf(TicketWith(claims));
  }

  /** Changing the letter case of the UPN claim's value does not change the decision. */
  lemma DecisionIgnoresUpnCase(claims: seq<Claim>, k: int, value': string, validUpns: seq<string>)
    requires IsFirstUpnAt(claims, k)
    requires EqualsIgnoreCase(claims[k].value, value')
    ensures Decide(TicketWith(claims[k := Claim(UpnClaimType, value')]), validUpns)
         == Decide(TicketWith(claims), validUpns)
  {
    var claims' := claims[k := Claim(UpnClaimType, value')];
    assert IsFirstUpnAt(claims', k);
    SignInContinuesIff(TicketWith(claims), validUpns);
    SignInContinuesIff(TicketWith(claims'), validUpns);
    forall k2 | IsFirstUpnAt(claims', k2) ensures k2 == k { FirstUpnAtUnique(claims', k, k2); }
    forall k2 | IsFirstUpnAt(claims, k2) ensures k2 == k { FirstUpnAtUnique(claims, k, k2); }
  }

  /** An identity whose UPN claim is "" is admitted by any allow-list holding the entry "". */
  lemma EmptyUpnAdmitted(validUpns: seq<string>, j: int)
    requires 0 <= j < |validUpns| && validUpns[j] == ""
    ensures Decide(TicketWith([Claim(UpnClaimType, "")]), validUpns) == Continue
  {
    assert EqualsIgnoreCase(validUpns[j], "");
  }

  /**
   * Because blank pieces survive as "", a setting with a white-space-only
   * piece admits an identity whose UPN claim is the empty string.
   */
  lemma BlankPieceAdmitsEmptyUpn(a: string, w: string, b: string)
    requires |w| > 0 && AllWhiteSpace(w)
    ensures Decide(TicketWith([Claim(UpnClaimType, "")]),
                   ParseValidUpns(Some(a + [UpnSeparator] + w + [UpnSeparator] + b))) == Continue
  {
    ParseKeepsBlankEntry(a, w, b);
    var before := ParseValidUpns(Some(a));
    var upns := before + ([""] + ParseValidUpns(Some(b)));
    assert upns[|before|] == "";
    EmptyUpnAdmitted(upns, |before|);
  }

  /**
   * The notification context handed to `SecurityTokenValidated`: the
   * validated ticket and the parts of the OWIN response the gate can change.
   */
  class SecurityTokenValidatedContext {
    const ticket: Option<AuthenticationTicket>
    var statusCode: int
    var location: Option<string>
    /** Set by `HandleResponse()`: the middleware stops and no session is established. */
    var handledResponse: bool

    constructor (ticket: Option<AuthenticationTicket>)
      ensures this.ticket == ticket
      ensures statusCode == 200 && location == None && !handledResponse
    {
      this.ticket := ticket;
      statusCode := 200;
      location := None;
      handledResponse := false;
    }

    /** `OwinContext.Response.Redirect(path)`: status 302 with a Location header. */
    method Redirect(path: string)
      modifies this`statusCode, this`location
      ensures statusCode == 302 && location == Some(path)
    {
      statusCode := 302;
      location := Some(path);
    }

    /** `HandleResponse()`. */
    method HandleResponse()
      modifies this`handledResponse
      ensures handledResponse
    {
      handledResponse := true;
    }
  }

  /** The `SecurityTokenValidated` notification of the "AppLogin" scheme. */
  method OnSecurityTokenValidated(context: SecurityTokenValidatedContext, validUpns: seq<string>)
    modifies context
    ensures Decide(context.ticket, validUpns) == Deny ==>
      context.statusCode == 302 && context.location == Some(InvalidUserPath) && context.handledResponse
    ensures Decide(context.ticket, validUpns) == Continue ==>
      context.statusCode == old(context.statusCode) && context.location == old(context.location)
      && context.handledResponse == old(context.handledResponse)
  {
    if Decide(context.ticket, validUpns) == Deny {
      context.Redirect(InvalidUserPath);
      context.HandleResponse();
    }
  }

  // ---------------------------------------------------------------------------
  // The prompt rule (RedirectToIdentityProvider)
  // ---------------------------------------------------------------------------

  /** `OpenIdConnectRequestType`. */
  datatype RequestType = Authentication | Logout | Token

  /** `OpenIdConnectParameterNames.Prompt`. */
  const PromptParameter: string := "prompt"

  /** `OpenIdConnectPrompt.Login`. */
  const LoginPrompt: string := "login"

  /** The `Prompt` property of a message: its "prompt" parameter, null when absent. */
  function Prompt(parameters: map<string, string>): Option<string> {
    if PromptParameter in parameters then Some(parameters[PromptParameter]) else None
  }

  /**
   * The parameters of an outbound message after the rule: an authentication
   * request gets `prompt=login` and keeps every other parameter; any other
   * request is left as it was.
   */
  function ForceLoginPrompt(requestType: RequestType, parameters: map<string, string>): (r: map<string, string>)
    ensures requestType == Authentication ==>
      Prompt(r) == Some(LoginPrompt)
      && r.Keys == parameters.Keys + {PromptParameter}
      && forall p :: p in parameters && p != PromptParameter ==> r[p] == parameters[p]
    ensures requestType != Authentication ==> r == parameters
  {
    if requestType == Authentication then parameters[PromptParameter := LoginPrompt] else parameters
  }

  /** Applying the rule a second time changes nothing. */
  lemma ForceLoginPromptIdempotent(requestType: RequestType, parameters: map<string, string>)
    ensures ForceLoginPrompt(requestType, ForceLoginPrompt(requestType, parameters))
         == ForceLoginPrompt(requestType, parameters)
  {
  }

  /** An outbound OpenID Connect protocol message. */
  class OpenIdConnectMessage {
    const requestType: RequestType
    var parameters: map<string, string>

    constructor (requestType: RequestType, parameters: map<string, string>)
      ensures this.requestType == requestType && this.parameters == parameters
    {
      this.requestType := requestType;
      this.parameters := parameters;
    }

    /** Setting the `Prompt` property. */
    method SetPrompt(value: string)
      modifies this`parameters
      ensures parameters == old(parameters)[PromptParameter := value]
    {
      parameters := parameters[PromptParameter := value];
    }
  }

  /**
   * The `RedirectToIdentityProvider` notification, registered identically on
   * the "AppLogin" scheme and on the SharePoint app-login scheme.
   */
  method OnRedirectToIdentityProvider(message: OpenIdConnectMessage)
    modifies message`parameters
    ensures message.parameters == ForceLoginPrompt(message.requestType, old(message.parameters))
  {
    if message.requestType == Authentication {
      message.SetPrompt(LoginPrompt);
    }
  }
}
