# User rules ("dynamic filtering") of the Fulguris browser, in Dafny

This project models `AbpUserRules`, the browser's per-site user rules.
They work like uBlock Origin's dynamic filtering. A rule is a single filter
that blocks or allows one kind of request:
- on one page host, or everywhere (a global rule);
- optionally only for one requested domain;
- optionally only for third-party requests.

The façade keeps these filters in two places:
- an in-memory `UserFilterContainer`, created lazily on first use from every
  row of the `UserRulesRepository`;
- the repository itself.

`getResponse` answers block, allow or nothing for a content request.

Two modules:

- `UserFilters` (`user_filters.dfy`) holds the values and the pure builder:
  - the two filter shapes (`ContainsFilter` for global rules, `HostFilter` for
    site rules), `SingleDomainMap`, and the integer third-party encoding
    (1 third party only, 0 first party only, -1 both);
  - `CreateUserFilter` (`createUserFilter`), with every output field stated;
  - `UserRuleOf`, its inverse. It recovers the rule a filter stands for, so
    each filter is exactly one user rule that can be listed and removed on its
    own;
  - `ResponseOf`, the `?.response` step of `getResponse` (true blocks, false
    allows, null is no opinion).
- `UserRules` (`abp_user_rules.dfy`) holds the class `AbpUserRules`:
  - `stored` is the repository rows, in `getAllRules()` order;
  - `loaded` says whether the lazy container exists yet;
  - `container` is the multiset of rules in the container;
  - a ghost trace `calls` records every call on the container and on the
    repository, in order.

  Every method states its whole new state and trace. Two of its properties:
  - `Synced()` says the container holds exactly the stored rows. The lazy
    load, `getResponse`, `addUserRule` and `removeUserRule` keep it when the
    repository write succeeds; `loadUserLists` breaks it for a non-empty
    repository. This rests on the model treating the two collaborators
    alike: filters are compared by value, the container keeps one copy per
    add and loses one per remove, and the repository deletes one equal row.
  - The trace shows two more facts about `addUserRule` and `removeUserRule`.
    The container changes before the repository is written. `addUserRule`
    hands the repository exactly the one-element list `[rule]`.

What the code does, which the model follows:

- `createUserFilter(…, thirdParty = false, …)` gives third-party value -1
  ("both parties"), not 0 ("first party only"). A rule built with
  `thirdParty = false` therefore applies to first-party and third-party
  requests alike.
- The builder has no error path. An empty request domain means "no domain
  map". An empty page domain means "global rule".
- `addUserRule` and `removeUserRule` do not roll back. If the repository
  write throws, the container has already changed, and memory and repository
  disagree from then on. The `repositoryThrows` parameter of those methods
  stands for that exception, and the contracts say what state it leaves.
- The lazy container is created by the first access of any operation. For
  `addUserRule`, that happens before the new rule is added, so the new rule is
  not loaded twice.
- `loadUserLists` is never called (the call in `init` is commented out). Its
  loop reaches the container through the lazy accessor. The first iteration
  therefore creates the container from every row, and then the loop adds each
  row once more. In this model, with a non-empty repository, the container
  ends up holding every row twice and no longer matches the repository
  (`LoadUserLists` states this). Whether the real container would drop the
  duplicates depends on `UserFilterContainer`, which is not part of this
  model.

## Model

| member | source | states |
|---|---|---|
| `UserFilters.CreateUserFilter` | app/src/main/java/acr/browser/lightning/adblock/AbpUserRules.kt:72-88 | No domain map exactly when the request domain is empty; otherwise an including `SingleDomainMap` of that domain only, which applies to that host and its subdomains. Third party `true` gives 1, `false` gives -1, never 0; so a `false` rule applies to both kinds of request. An empty page domain gives a `ContainsFilter` with the empty pattern; a non-empty one gives a case-sensitive `HostFilter` whose pattern is the page domain. The content type is copied unchanged. |
| `UserFilters.UserRuleOf` | app/src/main/java/acr/browser/lightning/adblock/AbpUserRules.kt:72-88 | Any rule it recovers from a filter rebuilds that very filter. |
| `UserFilters.UserRuleOfCreate` | app/src/main/java/acr/browser/lightning/adblock/AbpUserRules.kt:72-88 | Every built filter gives back the page domain, request domain, content type and third-party flag it was built from. |
| `UserFilters.CreateUserFilterInjective` | app/src/main/java/acr/browser/lightning/adblock/AbpUserRules.kt:12-13 | Two different rules never produce the same filter: each filter is one rule. |
| `UserFilters.ResponseOf` | app/src/main/java/acr/browser/lightning/adblock/AbpUserRules.kt:55-59 | Null exactly when no filter was found; otherwise the found filter's response (true blocks, false allows). |
| `UserRules.NewContainer` | app/src/main/java/acr/browser/lightning/adblock/AbpUserRules.kt:30 | The new container holds exactly the repository rows. Each row is added once, in repository order. |
| `UserRules.RemoveRow` | app/src/main/java/acr/browser/lightning/adblock/AbpUserRules.kt:69 | The rows after deleting a rule are the old rows minus one copy of it; unchanged if the rule was not stored. |
| `UserRules.RemoveRowKeepsOrder` | app/src/main/java/acr/browser/lightning/adblock/AbpUserRules.kt:69 | Deleting a stored rule removes its first row and leaves the other rows in their order. |
| `UserRules.AbpUserRules.constructor` | app/src/main/java/acr/browser/lightning/adblock/AbpUserRules.kt:26-28 | The repository is injected; no container exists yet and no call has been made. |
| `UserRules.AbpUserRules.UserRules` | app/src/main/java/acr/browser/lightning/adblock/AbpUserRules.kt:30 | On first access: calls `getAllRules()`, then adds each row in order, and the container equals the repository. Later accesses change nothing. The repository is never changed. |
| `UserRules.AbpUserRules.StoreRules` | app/src/main/java/acr/browser/lightning/adblock/AbpUserRules.kt:64 | The repository receives the given list. Its rows grow by that list unless the write throws. |
| `UserRules.AbpUserRules.DeleteRule` | app/src/main/java/acr/browser/lightning/adblock/AbpUserRules.kt:69 | The repository receives the rule. One equal row is deleted unless the write throws. |
| `UserRules.AbpUserRules.GetResponse` | app/src/main/java/acr/browser/lightning/adblock/AbpUserRules.kt:55-60 | Null exactly when the container lookup finds nothing; otherwise that filter's response. The rules and the repository stay as the lazy accessor leaves them. If the lookup only returns held rules, a decision comes from a rule in the container, and an empty container gives null. |
| `UserRules.AbpUserRules.AddUserRule` | app/src/main/java/acr/browser/lightning/adblock/AbpUserRules.kt:62-65 | The container gains exactly the rule. Then the repository is handed exactly `[rule]` and appends it. Nothing else changes. Memory and repository stay in step, given the model's duplicate handling (one copy per add in both); a throwing write leaves them out of step, because there is no rollback. |
| `UserRules.AbpUserRules.RemoveUserRule` | app/src/main/java/acr/browser/lightning/adblock/AbpUserRules.kt:67-70 | The container loses one copy of the rule. Then the repository deletes it. Nothing else changes. Memory and repository stay in step, given the model's duplicate handling (one copy per remove in both); a throwing write leaves them out of step whenever the rule was stored. |
| `UserRules.AbpUserRules.AddToContainer` | app/src/main/java/acr/browser/lightning/adblock/AbpUserRules.kt:52 | `userRules.add(rule)`: goes through the lazy accessor, then adds the rule. |
| `UserRules.AbpUserRules.AddEach` | app/src/main/java/acr/browser/lightning/adblock/AbpUserRules.kt:52 | Adds every row in order. The first add creates the container if it does not exist yet. |
| `UserRules.AbpUserRules.LoadUserLists` | app/src/main/java/acr/browser/lightning/adblock/AbpUserRules.kt:43-53 | Calls `getAllRules()`, then adds every row on top of what the lazy accessor yields. Starting in step, memory and repository stay in step only when the repository is empty. |

## Left out

- `UserFilterContainer` matching is not part of this model. `GetResponse`
  takes the container's lookup as a parameter, and no priority or match rule
  is assumed.
- Container order: the container is a multiset, so it forgets the order in
  which rules were added. A lookup that depends on insertion order cannot be
  expressed; the order of adds is kept only in the ghost call trace.
- Container duplicates: adding a rule twice keeps two copies, and a remove
  takes out one. Whether the real container drops duplicates is not known
  here. Memory and repository stay in step only because the repository
  stand-in also deletes one row per remove. With a repository that deletes
  every equal row, or a container that drops duplicates, they would fall out
  of step once a rule is held twice.
- Filter equality: filters are compared by value (Dafny datatype equality).
  How `UnifiedFilter.equals` compares them is not part of this model.
- `UnifiedFilter`, `SingleDomainMap` and `ContentRequest` are not part of
  this model beyond the fields the builder sets. `DomainsApply` and
  `PartyApplies` state what the domain map and the third-party value mean.
  For the including domain map and the third-party values, this follows the
  comments of `createUserFilter`. That an excluding map applies to every
  other host is this model's own reading; the builder never makes one.
  Neither predicate is the library's matching code.
- `UserRulesRepository` is not part of this model. It is represented by its
  rows: `addRules` appends, and `removeRule` deletes the first equal row.
  Database I/O, serialisation and the exceptions of `getAllRules()` are not
  modelled.
- `isAllowed` and `isWhitelisted`, which the menus call, are not defined in
  `AbpUserRules.kt` and are not modelled.
- Thread-safety of the `by lazy` initialiser, loading on a background thread,
  and the `@Singleton`/`@Inject` wiring are left out. The model is
  sequential.
