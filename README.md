# OSharp online-user role claims and client filter helpers, in Dafny

This project models two small pieces of the OSharp framework and proves what they promise.

**The online-user token handler** (`OnlineUserJwtSecurityTokenHandler.CreateClaimsIdentity`). The JWT library first builds a claims identity from a validated bearer token. If that identity is authenticated, the handler looks up the user's live roles in the online-user cache, keyed by the identity's name. It then removes the first role claim the token was issued with. If the live role list is not empty, it appends one role claim whose value is the live roles joined into one string. The identity is a class whose claim list the handler changes in place (`JwtBearer.ClaimsIdentity`). The cache is a function from the name, which may be null, to an optional online user. The handler method is proved against the value function `Reconciled`, and the lemmas about that function state the properties:
- only the first stale role claim goes;
- every non-role claim stays, in order;
- with at most one role claim in the token, the live roles replace the token's role rather than joining it;
- with at most one role claim, a second pass with the same cache changes nothing.

A token with two role claims keeps its second, stale role; `SecondStaleRoleSurvives` shows this. If the cache has no user, the source dereferences null after it has already removed the role claim. The model returns `Err(OnlineUserMissing)` with the claim list in that state.

**The browser-side model helpers** (`osharp.model.ts`):
- `FilterRule`, a single query condition whose operator defaults to `Equal`.
- `FilterGroup`, a tree of groups. `Init` numbers each group's nesting level in place (`Filters.FilterGroup`, with a ghost value of the tree and its footprint `Repr`). `Init` is proved against `Relevel`. The lemmas show that it writes only levels, numbers depth from the root's level, and is idempotent.
- `FilterOperateEntry`, an operator code paired with the text `"<code>.<label>"`.
- The `User` constructor. It checks that the token has three '.'-separated segments and reads the decoded payload with the source's defaults. It splits the `role` claim on ','. `Users.LiveRolesReachBrowser` proves that this split undoes the server's join of the live roles when the separator is ',' and no role contains a ','.

Objects that their constructor only initialises (`FilterRule`, `FilterOperateEntry`, `User`) are datatypes built by a function. `FilterGroup` has its fields overwritten by `Init`, so it is a class.

Modules: `Wrappers` (Option, Result), `Text` (join, one-character split, JSON whitespace trimming, decimal rendering and its parser), `JwtBearer`, `Filters`, `Users`.

## Model

| member | source | states |
|---|---|---|
| `JwtBearer.CreateClaimsIdentity` | src/OSharp.Permissions/Identity/JwtBearer/OnlineUserJwtSecurityTokenHandler.cs:35-58 | Unauthenticated: claims unchanged, cache result unused, identity returned. Authenticated: the cache is read at exactly the identity's name. With a user, the claims become `Reconciled(old claims, live roles, sep)`. Without one, the first role claim is already gone and the result is `Err(OnlineUserMissing)`, never "no roles". |
| `JwtBearer.FirstRoleIndex` | src/OSharp.Permissions/Identity/JwtBearer/OnlineUserJwtSecurityTokenHandler.cs:46 | The index found is that of a role claim, and no claim before it is a role claim. It is `\|claims\|` when there is none (`FirstOrDefault` gives null). |
| `JwtBearer.RemoveFirstRoleSelects` | src/OSharp.Permissions/Identity/JwtBearer/OnlineUserJwtSecurityTokenHandler.cs:46-50 | Removing the first role claim keeps every non-role claim in order. Of the role claims, it drops exactly the first and keeps the later ones. |
| `JwtBearer.ReconciledSelects` | src/OSharp.Permissions/Identity/JwtBearer/OnlineUserJwtSecurityTokenHandler.cs:46-54 | For every input, the non-role claims pass through in order. The role claims become the token's role claims minus the first, plus one claim with the joined live roles when there are any. |
| `JwtBearer.ReplaceNotUnion` | src/OSharp.Permissions/Identity/JwtBearer/OnlineUserJwtSecurityTokenHandler.cs:46-54 | If the token has at most one role claim, the result's role claims are exactly `[Role: join(live roles)]`, or none when the live list is empty. No stale role survives next to live ones. |
| `JwtBearer.ReconcileIdempotent` | src/OSharp.Permissions/Identity/JwtBearer/OnlineUserJwtSecurityTokenHandler.cs:46-54 | If the token has at most one role claim, reconciling the result again with the same live roles gives the same claim sequence. |
| `JwtBearer.SecondStaleRoleSurvives` | src/OSharp.Permissions/Identity/JwtBearer/OnlineUserJwtSecurityTokenHandler.cs:46-50 | A token with role claims `admin` and `editor` and live roles `[viewer]` ends with role claims `editor` and `viewer`. A second pass changes it again. |
| `Text.SplitJoin` | tests/web/ui/ng-alain/src/app/shared/osharp/osharp.model.ts:240 | Splitting a join of a non-empty role list on the one-character separator gives the list back, if no role contains the separator. |
| `Text.JoinSplit` | tests/web/ui/ng-alain/src/app/shared/osharp/osharp.model.ts:240 | Joining the pieces of any split with the same separator gives the original string. |
| `Text.Split` | tests/web/ui/ng-alain/src/app/shared/osharp/osharp.model.ts:227 | `split` on one character yields one more piece than the string has separators, and no piece contains the separator. |
| `Text.ParseIntToString` | tests/web/ui/ng-alain/src/app/shared/osharp/osharp.model.ts:132 | The decimal text a template string gives an integer can be read back to exactly that integer. |
| `Filters.FilterRuleDefaultsToEqual` | tests/web/ui/ng-alain/src/app/shared/osharp/osharp.model.ts:44-48 | A rule built without an operator has operator `Equal`, and field and value exactly as given. |
| `Filters.NewFilterRule` | tests/web/ui/ng-alain/src/app/shared/osharp/osharp.model.ts:44-48 | The rule stores field, value and operator unchanged. |
| `Filters.FilterGroup.constructor` | tests/web/ui/ng-alain/src/app/shared/osharp/osharp.model.ts:51-58 | A new group has no rules, no subgroups, operator `And` and level 1. It is a valid one-node tree whose footprint is that group alone. |
| `Filters.FilterGroup.Init` | tests/web/ui/ng-alain/src/app/shared/osharp/osharp.model.ts:60-68 | It needs a valid tree whose footprint `Repr` holds exactly the tree's groups (`Covered`), so its frame lets it write only the `level` fields (and the ghost tree) of those groups. The tree stays valid and covered, and its new value is `Relevel(old tree, old level)`. |
| `Filters.FilterGroup.InitSubgroup` | tests/web/ui/ng-alain/src/app/shared/osharp/osharp.model.ts:64-67 | One `forEach` step: subgroup i ends numbered from its parent's level plus one. Every other subgroup is untouched. |
| `Filters.FilterGroup.Renumber` | tests/web/ui/ng-alain/src/app/shared/osharp/osharp.model.ts:60-68 | The recursion of `Init`: the same numbering, `Relevel(old tree, old level)`, proved for any valid tree. Each subgroup is numbered through `InitSubgroup`. |
| `Filters.FilterGroup.SetLevel` | tests/web/ui/ng-alain/src/app/shared/osharp/osharp.model.ts:65 | Assigning a subgroup's level changes that level and nothing else of the tree. |
| `Filters.RelevelSameShape` | tests/web/ui/ng-alain/src/app/shared/osharp/osharp.model.ts:60-68 | Numbering changes levels only: rules, operators and the shape of the group tree stay the same. |
| `Filters.RelevelNumbersDepth` | tests/web/ui/ng-alain/src/app/shared/osharp/osharp.model.ts:60-68 | Starting from a level that is not negative, the root ends at 1 if it was unset (0) and keeps its level otherwise. Every group d levels below ends at the root's level plus d. |
| `Filters.RelevelIdempotent` | tests/web/ui/ng-alain/src/app/shared/osharp/osharp.model.ts:60-68 | Numbering an already numbered tree, starting from its root's level, changes nothing. So running `Init` twice gives the same levels as running it once. |
| `Filters.NegativeLevelSkipsZero` | tests/web/ui/ng-alain/src/app/shared/osharp/osharp.model.ts:61-66 | Under a root at level -1, the child that would get 0 is reset to 1, so the levels run -1, 1, 2. |
| `Filters.OperateLabelsDistinct` | tests/web/ui/ng-alain/src/app/shared/osharp/osharp.model.ts:91-127 | The codes 1 to 12 get pairwise-distinct labels, none of them the fallback label. |
| `Filters.OperateLabelUnknown` | tests/web/ui/ng-alain/src/app/shared/osharp/osharp.model.ts:128-130 | Every other code gets "未知操作". |
| `Filters.NewFilterOperateEntry` | tests/web/ui/ng-alain/src/app/shared/osharp/osharp.model.ts:89-133 | The entry keeps the operator. Its display is the decimal code, then ".", then the label, and reading the number before the first "." gives back the code. |
| `Filters.EntryDisplayInjective` | tests/web/ui/ng-alain/src/app/shared/osharp/osharp.model.ts:132 | Entries for different codes never have the same display. |
| `Users.ReadIsAdmin` | tests/web/ui/ng-alain/src/app/shared/osharp/osharp.model.ts:239 | An absent or null `is-admin` gives false. A JSON boolean gives itself. A string gives true exactly when it is "true" and false exactly when it is "false", after JSON whitespace is trimmed. Every other present value is `IsAdminNotBoolean`, and only such a value is. |
| `Users.PaddedFlagReads` | tests/web/ui/ng-alain/src/app/shared/osharp/osharp.model.ts:239 | "true" or "false" with any space, tab, line feed or carriage return around it reads as that boolean, as `JSON.parse` skips that whitespace. |
| `Users.ReadRoles` | tests/web/ui/ng-alain/src/app/shared/osharp/osharp.model.ts:240 | An absent or null `role` gives no roles. A string role gives pieces that rejoin with ',' to exactly that string, none containing ','. Any other value is `RoleNotString` (and only such a value is). |
| `Users.ReadDate` | tests/web/ui/ng-alain/src/app/shared/osharp/osharp.model.ts:241-243 | An absent or null key gives no date, and only then. A number of seconds gives that many thousand milliseconds, exactly when that lies within 8.64e15 ms of the epoch; otherwise the date is invalid. true and false give 1000 and 0 ms, and an empty or blank string gives 0 ms. |
| `Users.DateTextAgreesWithNumber` | tests/web/ui/ng-alain/src/app/shared/osharp/osharp.model.ts:241-243 | A time given as the decimal text of a number of seconds is the same date as that number given as a JSON number. |
| `Users.ReadPayload` | tests/web/ui/ng-alain/src/app/shared/osharp/osharp.model.ts:231-243 | It succeeds exactly when `is-admin` and `role` both read, and `is-admin` is checked first. On success: the admin flag and roles are those two readings. id, user name, nick name, email and security stamp are the payload value when it is truthy in JavaScript terms (so "" and 0 fall back too), and 0 or null otherwise. The three dates are `ReadDate` of `iat`, `nbf` and `exp`. |
| `Users.NewUser` | tests/web/ui/ng-alain/src/app/shared/osharp/osharp.model.ts:223-244 | No field is set (`Unset`) exactly when the token is null or does not split on '.' into three segments. For a three-segment token, an undecodable middle segment is `PayloadUnreadable`, and a decodable one gives exactly `ReadPayload` of it: every field read with its default. |
| `Users.EmptyPayloadDefaults` | tests/web/ui/ng-alain/src/app/shared/osharp/osharp.model.ts:234-243 | An empty payload gives every default: id 0, null names, email and stamp, not admin, no roles, no dates. |
| `Users.LiveRolesReachBrowser` | tests/web/ui/ng-alain/src/app/shared/osharp/osharp.model.ts:240 | When the server's role claim value (the live roles joined with ',') reaches the payload, the browser's roles are exactly the live roles, if no role contains ','. |
| `Users.CommaInRoleSplits` | tests/web/ui/ng-alain/src/app/shared/osharp/osharp.model.ts:240 | A live role `a,b` comes back in the browser as two roles, `a` and `b`. |

## Left out

- `base.CreateClaimsIdentity` and all JWT signature, expiry and audience validation belong to the JWT library. The model takes the identity they produce as its input.
- The `ServiceLocator` lookup of the cache is ambient dependency plumbing. The cache is passed to `CreateClaimsIdentity` as a function parameter.
- `IOnlineUserCache.GetOrRefresh` is not part of this model (no refresh, expiry, stale serving or request coalescing). It is an arbitrary function from the name to an optional online user, and only the user's role list is kept.
- `ExpandAndToString` is not part of this model. It is treated as a join with a separator parameter (`Text.Join`). The browser round trip holds for the separator ','.
- JwtBearer.ClaimsIdentity: .NET derives `Name` from the first claim of the name claim type. The model fixes it when the identity is built, which is exact here because the handler only touches role claims. The identity's external claims are not modelled. `RemoveClaim`'s removal of that claim object is modelled as removal at the index `FirstOrDefault` found.
- Base64 decoding (`Buffer`) and `JSON.parse` of the payload are foreign calls. They are the parameter `decode` of `NewUser`, with `None` for a throw.
- Users.ReadIsAdmin: for a value that `JSON.parse` reads as something other than a boolean (a number, `null`, a quoted string), the source stores that value in `IsAdmin`. For text that is not JSON, it throws. The model reports `IsAdminNotBoolean` for both, and the whole user fails. Arrays are `JOther`, which the model does not look into. So `[true]`, `["false"]` or `[" true"]` give a boolean in the source but `IsAdminNotBoolean` in the model.
- Users.ReadDate: the model reads a string as an optionally negative decimal integer once space, tab, line feed and carriage return are trimmed, and a blank string as 0. JavaScript also accepts a leading '+', fractions, exponents, hexadecimal, `Infinity` and other Unicode whitespace. These give `InvalidDate` in the model. `[]` (0 in JavaScript), `[n]` (n), objects and non-integral numbers are `JOther` and also give `InvalidDate`. `Date` objects are their time in milliseconds. Multiplying by 1000 is exact within the valid date range.
- JSON numbers are integers in the model. Non-integral numbers are `JOther`, and the decimal rendering does not switch to exponent notation for very large numbers.
- Filters.FilterGroup.Init: requires the groups to form a tree whose footprint holds exactly its groups. A subgroup shared between two parents would be numbered twice, last write winning, and a cycle makes the source recurse forever. An undefined or NaN level is modelled as 0, the value `!Level` treats the same way.
- Filters.NewFilterOperateEntry: codes are integers, and any integer can be passed, as in the source. Non-integral codes and NaN are not modelled. For example, the source displays 1.5 as "1.5.未知操作", which would read back as 1.
- The behaviour-free DTOs and enums (`AjaxResult`, `PageData`, `ListNode`, `EntityProperty`, `VerifyCode`, the login, register, password and mail DTOs, `AuthConfig`, `InstallDto`, `AdResult`) carry no logic to model.
- Concurrency between requests sharing the cache is not modelled. Each call is sequential and deterministic.
