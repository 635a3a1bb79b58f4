# Authentication startup rules of the list-search configuration app

This project models, in Dafny, the decision and string rules inside the
configuration web app's OWIN authentication startup (`Startup.ConfigureAuth`
and `Startup.EnsureTrailingSlash`), lifted out of the middleware wiring that
surrounds them:

- **Authority.** `EnsureTrailingSlash` normalises the `ida:AADInstance`
  setting (a null setting counts as empty; a missing trailing `/` is added).
  The authority is that URL followed by the `ida:TenantId` setting.
- **Allow-list.** The `ValidUpns` setting is split on `;`. Zero-length pieces
  are removed, and then each remaining piece is trimmed. A missing setting
  gives an empty list. Because removal comes before trimming, a
  white-space-only piece survives as an empty-string entry.
- **UPN gate.** On `SecurityTokenValidated` of the "AppLogin" scheme, the
  first UPN claim of the validated identity is looked up. If there is none,
  or it equals no allow-list entry ignoring case, the response is redirected
  to `/Account/InvalidUser` and marked handled. Otherwise sign-in continues
  and the response is left alone.
- **Prompt rule.** On `RedirectToIdentityProvider` of both OpenID Connect
  schemes, an outbound authentication request gets `prompt=login`. Every
  other request type passes through unchanged.

Files:

- `wrappers.dfy`: `Option`, standing for a possibly-null reference.
- `net_strings.dfy` (module `NetStrings`): the .NET primitives the rules use:
  ordinal `EndsWith`, `Char.IsWhiteSpace`, `Trim`, `Split`,
  `RemoveEmptyEntries` and ordinal case-insensitive equality and `Contains`.
  `Trim`, `Split`, `RemoveEmpty` and `ContainsIgnoreCase` are each proved
  against an independent description: `Trim` against a "white space around
  a clean core" predicate with uniqueness, `Split` against `Join` in both
  directions, `RemoveEmpty` against membership of the non-empty pieces, and
  `ContainsIgnoreCase` against "some entry equals the value ignoring case".
- `startup_auth.dfy` (module `StartupAuth`): the four rules as functions,
  the two notification handlers as methods over small context classes, and
  the lemmas relating them.

Configuration settings are inputs of type `Option<string>`; `None` is a
missing setting. The handlers mutate the context object they are given, so
they are methods whose postconditions tie the new state to the pure
decision functions.

Dropping blank entries after trimming would lose a white-space-only piece.
The code drops zero-length pieces before trimming, so `"a; ;b"` yields
`["a", "", "b"]`. `ParseKeepsBlankEntry` states the general rule.
`BlankPieceAdmitsEmptyUpn` shows what it implies: such a setting admits an
identity whose UPN claim value is the empty string.

## Model

| member | source | states |
|---|---|---|
| `NetStrings.EndsWith` | Source/ConfigApp/App_Start/Startup.Auth.cs:123 | ordinal suffix test: holds exactly when the suffix is no longer than the string and matches its last characters position by position |
| `NetStrings.IsWhiteSpace` | Source/ConfigApp/App_Start/Startup.Auth.cs:44 | space, tab, line feed and carriage return are white space; letters, digits, ';', '@' and '.' are not |
| `NetStrings.TrimStart` | Source/ConfigApp/App_Start/Startup.Auth.cs:44 | the result is a suffix of the input; everything removed is white space; the result does not start with white space |
| `NetStrings.TrimEnd` | Source/ConfigApp/App_Start/Startup.Auth.cs:44 | the result is a prefix of the input; everything removed is white space; the result does not end with white space |
| `NetStrings.Trim` | Source/ConfigApp/App_Start/Startup.Auth.cs:44 | the result is a contiguous part of the input with only white space around it and no white space at either of its ends |
| `NetStrings.TrimUnique` | Source/ConfigApp/App_Start/Startup.Auth.cs:44 | at most one string fits that description, so `Trim` is determined by it |
| `NetStrings.TrimAround` | Source/ConfigApp/App_Start/Startup.Auth.cs:44 | trimming white space around a clean core gives exactly the core |
| `NetStrings.TrimAllWhiteSpace` | Source/ConfigApp/App_Start/Startup.Auth.cs:44 | a white-space-only string trims to the empty string |
| `NetStrings.TrimIdempotent` | Source/ConfigApp/App_Start/Startup.Auth.cs:44 | trimming twice is trimming once |
| `NetStrings.TrimKeepsOut` | Source/ConfigApp/App_Start/Startup.Auth.cs:44 | trimming never introduces a character that the input lacks |
| `NetStrings.Split` | Source/ConfigApp/App_Start/Startup.Auth.cs:43 | splitting always yields at least one piece, even for the empty string |
| `NetStrings.SplitPiecesExcludeSeparator` | Source/ConfigApp/App_Start/Startup.Auth.cs:43 | no piece contains the separator |
| `NetStrings.JoinSplit` | Source/ConfigApp/App_Start/Startup.Auth.cs:43 | joining the pieces with the separator rebuilds the input |
| `NetStrings.SplitJoin` | Source/ConfigApp/App_Start/Startup.Auth.cs:43 | splitting a join of separator-free pieces returns those pieces, so `Split` is the inverse of `Join` |
| `NetStrings.SplitNoSeparator` | Source/ConfigApp/App_Start/Startup.Auth.cs:43 | a string without the separator is one piece |
| `NetStrings.SplitConcat` | Source/ConfigApp/App_Start/Startup.Auth.cs:43 | a separator between two strings splits them apart, keeping the pieces in order |
| `NetStrings.RemoveEmpty` | Source/ConfigApp/App_Start/Startup.Auth.cs:43 | the result keeps every non-empty piece, only pieces of the input, and no empty one |
| `NetStrings.RemoveEmptyAppend` | Source/ConfigApp/App_Start/Startup.Auth.cs:43 | removing empty pieces distributes over concatenation, so relative order is kept |
| `NetStrings.SameUpperIff` | Source/ConfigApp/App_Start/Startup.Auth.cs:61 | two characters have the same upper-case form exactly when they are equal or one is the lower-case ASCII letter of the other |
| `NetStrings.EqualsIgnoreCase` | Source/ConfigApp/App_Start/Startup.Auth.cs:61 | strings equal ignoring case have the same length, and equal strings are equal ignoring case |
| `NetStrings.EqualsIgnoreCaseIffSameUpper` | Source/ConfigApp/App_Start/Startup.Auth.cs:61 | two strings are equal ignoring case exactly when their upper-case forms are equal |
| `NetStrings.EqualsIgnoreCaseEquivalence` | Source/ConfigApp/App_Start/Startup.Auth.cs:61 | case-insensitive equality is reflexive, symmetric and transitive |
| `NetStrings.ContainsIgnoreCase` | Source/ConfigApp/App_Start/Startup.Auth.cs:61 | the list contains the value exactly when some entry equals it ignoring case |
| `StartupAuth.EnsureTrailingSlash` | Source/ConfigApp/App_Start/Startup.Auth.cs:116-129 | the result ends in "/"; null gives exactly "/"; an input already ending in "/" is returned unchanged; otherwise the input is a prefix and the length grows by exactly one |
| `StartupAuth.EnsureTrailingSlashIdempotent` | Source/ConfigApp/App_Start/Startup.Auth.cs:116-129 | normalising an already normalised instance changes nothing |
| `StartupAuth.Authority` | Source/ConfigApp/App_Start/Startup.Auth.cs:27-30 | the instance setting is a prefix of the authority and the tenant id a suffix, with a "/" just before the tenant id and at most one character added between them |
| `StartupAuth.AuthorityShape` | Source/ConfigApp/App_Start/Startup.Auth.cs:27-30 | the authority is the instance followed directly by the tenant id; a "/" is put between them only when the instance does not already end in one |
| `StartupAuth.AuthorityWithoutInstance` | Source/ConfigApp/App_Start/Startup.Auth.cs:27 | a missing instance setting gives "/" followed by the tenant id |
| `StartupAuth.TrimEach` | Source/ConfigApp/App_Start/Startup.Auth.cs:44 | one entry per piece, each the trimmed form of its piece, in the same order; no entry starts or ends with white space, and an entry holds ';' only if its piece did |
| `StartupAuth.ParseValidUpns` | Source/ConfigApp/App_Start/Startup.Auth.cs:42-45 | a missing setting gives an empty list; no entry contains ';' or starts or ends with white space |
| `StartupAuth.ParseValidUpnsConcat` | Source/ConfigApp/App_Start/Startup.Auth.cs:42-45 | the entries of `a;b` are those of `a` followed by those of `b`, so entries keep the order of their pieces |
| `StartupAuth.ParseValidUpnsPiece` | Source/ConfigApp/App_Start/Startup.Auth.cs:43-44 | a separator-free piece gives no entry when it is empty and its trimmed form otherwise |
| `StartupAuth.ParseKeepsBlankEntry` | Source/ConfigApp/App_Start/Startup.Auth.cs:43-44 | a white-space-only piece becomes an empty-string entry in its position, because emptiness is tested before trimming |
| `StartupAuth.ParseDropsEmptyPiece` | Source/ConfigApp/App_Start/Startup.Auth.cs:43 | two adjacent separators contribute no entry |
| `StartupAuth.ParseSingleEntry` | Source/ConfigApp/App_Start/Startup.Auth.cs:42-45 | a setting that is one clean UPN gives exactly that UPN |
| `StartupAuth.ParsePaddedEntry` | Source/ConfigApp/App_Start/Startup.Auth.cs:42-45 | a clean UPN with one space on each side gives exactly that UPN |
| `StartupAuth.ParseValidUpnsSpacedList` | Source/ConfigApp/App_Start/Startup.Auth.cs:42-45 | `u1; u2 ;` gives exactly `[u1, u2]`: the trailing empty piece is dropped and the spaces are trimmed |
| `StartupAuth.ParseValidUpnsExample` | Source/ConfigApp/App_Start/Startup.Auth.cs:42-45 | `"a@x.com; b@y.com ;"` gives exactly `["a@x.com", "b@y.com"]` |
| `StartupAuth.FirstUpnClaim` | Source/ConfigApp/App_Start/Startup.Auth.cs:56-57 | there is no result exactly when no claim has the UPN type; otherwise the result is the claim at the first UPN-typed position |
| `StartupAuth.FirstUpnAtUnique` | Source/ConfigApp/App_Start/Startup.Auth.cs:56-57 | only one position can hold the first UPN claim |
| `StartupAuth.FirstUpnClaimAt` | Source/ConfigApp/App_Start/Startup.Auth.cs:56-57 | whichever position holds the first UPN claim, that claim is the result |
| `StartupAuth.ClaimsOf` | Source/ConfigApp/App_Start/Startup.Auth.cs:56 | claims are present exactly when both the ticket and its identity are, and then they are the identity's claims |
| `StartupAuth.UpnOf` | Source/ConfigApp/App_Start/Startup.Auth.cs:56-58 | a UPN is present exactly when there are claims and one of them has the UPN type, and it is then the value of the first such claim |
| `StartupAuth.Decide` | Source/ConfigApp/App_Start/Startup.Auth.cs:60-61 | sign-in continues exactly when there is a UPN and some allow-list entry equals it ignoring case |
| `StartupAuth.SignInContinuesIff` | Source/ConfigApp/App_Start/Startup.Auth.cs:56-67 | sign-in continues exactly when the identity has claims and its first UPN claim equals some allow-list entry ignoring case |
| `StartupAuth.SignInDeniedWithoutUpn` | Source/ConfigApp/App_Start/Startup.Auth.cs:56-61 | missing claims, or no UPN claim among them, denies sign-in |
| `StartupAuth.EmptyAllowListDeniesAll` | Source/ConfigApp/App_Start/Startup.Auth.cs:45 | a missing `ValidUpns` setting, or any empty allow-list, denies every identity |
| `StartupAuth.OnlyFirstUpnDecides` | Source/ConfigApp/App_Start/Startup.Auth.cs:56-58 | once a UPN claim has appeared, later claims do not change the decision |
| `StartupAuth.DecisionIgnoresUpnCase` | Source/ConfigApp/App_Start/Startup.Auth.cs:61 | changing the letter case of the UPN value does not change the decision |
| `StartupAuth.EmptyUpnAdmitted` | Source/ConfigApp/App_Start/Startup.Auth.cs:60-61 | an allow-list holding "" admits an identity whose UPN value is "" |
| `StartupAuth.BlankPieceAdmitsEmptyUpn` | Source/ConfigApp/App_Start/Startup.Auth.cs:42-61 | a setting with a white-space-only piece admits an identity whose UPN value is "" |
| `StartupAuth.SecurityTokenValidatedContext.constructor` | Source/ConfigApp/App_Start/Startup.Auth.cs:54 | a fresh context carries the validated ticket and an unredirected, unhandled response |
| `StartupAuth.SecurityTokenValidatedContext.Redirect` | Source/ConfigApp/App_Start/Startup.Auth.cs:63 | the response gets status 302 and the given location |
| `StartupAuth.SecurityTokenValidatedContext.HandleResponse` | Source/ConfigApp/App_Start/Startup.Auth.cs:64 | the notification is marked handled |
| `StartupAuth.OnSecurityTokenValidated` | Source/ConfigApp/App_Start/Startup.Auth.cs:54-68 | on a denial the response is a 302 to `/Account/InvalidUser` and handled; on continue the response is untouched |
| `StartupAuth.ForceLoginPrompt` | Source/ConfigApp/App_Start/Startup.Auth.cs:69-77 | an authentication request ends up with prompt `login` and every other parameter kept; any other request type is unchanged |
| `StartupAuth.ForceLoginPromptIdempotent` | Source/ConfigApp/App_Start/Startup.Auth.cs:69-77 | applying the rule twice is applying it once |
| `StartupAuth.OpenIdConnectMessage.constructor` | Source/ConfigApp/App_Start/Startup.Auth.cs:71 | a message carries its request type and parameters |
| `StartupAuth.OpenIdConnectMessage.SetPrompt` | Source/ConfigApp/App_Start/Startup.Auth.cs:73 | setting `Prompt` sets the "prompt" parameter and keeps the others |
| `StartupAuth.OnRedirectToIdentityProvider` | Source/ConfigApp/App_Start/Startup.Auth.cs:102-110 | the message's parameters become those the prompt rule gives, on the SharePoint app-login scheme as on "AppLogin" |

## Left out

- `ContainsIgnoreCase`: compares with ASCII-only case mapping (`ToUpperAscii`). `StringComparer.OrdinalIgnoreCase` also folds non-ASCII letters using the invariant culture's simple upper-case mapping. The model therefore treats, for example, "é" and "É" as different.
- Strings are sequences of Unicode scalar values, not UTF-16 code units. Surrogate pairs are not modelled.
- The OWIN pipeline registration is not modelled: default sign-in type, cookie middleware, the two `OpenIdConnectAuthenticationOptions` objects and passive mode. It is declarative configuration of foreign middleware.
- `ConfigurationManager.AppSettings` reads are not modelled. Each setting is a parameter of type `Option<string>`.
- `AuthorizationCodeReceived` is not modelled. It does a network token exchange through ADAL, blocks on `.Result`, and persists the token through `TokenHelper`. All of that is network I/O and foreign calls.
- `AntiForgeryConfig.UniqueClaimTypeIdentifier` is not modelled. It is a global setting in a foreign library.
- A null notification context is not modelled. The source would throw when it redirects (line 63), and the middleware never passes null.
- Claim values are never null, because .NET's `Claim` refuses a null value. A missing UPN therefore comes only from a missing ticket, identity or UPN claim.
- `Source/Microsoft.Teams.Apps.ListSearch.Common/Helpers/BlobHelper.cs` is not modelled. It passes calls straight through to the Azure Storage SDK and has no logic of its own. Overwrite-on-upload and delete-if-missing are SDK behaviour.
