/** The user-rule façade AbpUserRules: a lazily created filter container
    kept in step with the user rules repository. The container is held as the
    multiset of rules it contains, the repository as the sequence of its rows
    in the order getAllRules() returns them; the container's lookup is a
    parameter. Every call the façade makes on either collaborator is recorded,
    in order, in a ghost trace. */
module UserRules {
  import opened UserFilters

  /** A call the façade makes on the container or on the repository. */
  datatype Call =
    | ContainerAdd(rule: FilterResponse)
    | ContainerRemove(rule: FilterResponse)
    | ContainerGet(request: ContentRequest)
    | RepositoryGetAllRules
    | RepositoryAddRules(rules: seq<FilterResponse>)
    | RepositoryRemoveRule(rule: FilterResponse)

  /** The container calls that adding `rules` one by one makes, in order. */
  ghost function AddCalls(rules: seq<FilterResponse>): seq<Call>
  {
    seq(|rules|, i requires 0 <= i < |rules| => ContainerAdd(rules[i]))
  }

  /** Adding one more row adds one more call at the end. */
  lemma AddCallsSnoc(rows: seq<FilterResponse>, i: nat)
    requires i < |rows|
    ensures AddCalls(rows[..i + 1]) == AddCalls(rows[..i]) + [ContainerAdd(rows[i])]
  {
  }

  /** Adding the rows to a container that already holds exactly them keeps
      it equal to the rows only when there are none. */
  lemma DoubledEqualsOnlyWhenEmpty(rows: seq<FilterResponse>)
    ensures multiset(rows) + multiset(rows) == multiset(rows) <==> rows == []
  {
    if rows != [] {
      assert (multiset(rows) + multiset(rows))[rows[0]] == 2 * multiset(rows)[rows[0]];
    }
  }

  /** Adding a rule always changes a container. */
  lemma AdditionChanges(rules: multiset<FilterResponse>, rule: FilterResponse)
    ensures rules + multiset{rule} != rules
  {
    assert (rules + multiset{rule})[rule] == rules[rule] + 1;
  }

  /** Removing a rule changes a container exactly when it holds the rule. */
  lemma RemovalChanges(rules: multiset<FilterResponse>, rule: FilterResponse)
    ensures rules - multiset{rule} == rules <==> rule !in rules
  {
  }

  /** The repository's row deletion: one row equal to `rule` goes
      (RemoveRowKeepsOrder: the first one, the other rows keeping their order). */
  function RemoveRow(rows: seq<FilterResponse>, rule: FilterResponse): (r: seq<FilterResponse>)
    ensures multiset(r) == multiset(rows) - multiset{rule}
    ensures rule !in rows ==> r == rows
  {
    if rows == [] then []
    else
      assert rows == [rows[0]] + rows[1..];
      if rows[0] == rule then rows[1..]
      else [rows[0]] + RemoveRow(rows[1..], rule)
  }

  /** Deleting a stored rule takes out its first row, at `k`, and keeps the
      other rows in order. */
  lemma {:induction false} RemoveRowKeepsOrder(rows: seq<FilterResponse>, rule: FilterResponse, k: nat)
    requires k < |rows| && rows[k] == rule && rule !in rows[..k]
    ensures RemoveRow(rows, rule) == rows[..k] + rows[k + 1..]
  {
    if k > 0 {
      var tail := rows[1..];
      DropOneAfterHead(rows, rule, k);
      RemoveRowKeepsOrder(tail, rule, k - 1);
      assert RemoveRow(rows, rule) == [rows[0]] + RemoveRow(tail, rule);
    }
  }

  /** Dropping the row at `k > 0` is keeping the head and dropping the row
      at `k - 1` of the tail; the head is not the first `rule`. */
  lemma DropOneAfterHead(rows: seq<FilterResponse>, rule: FilterResponse, k: nat)
    requires 0 < k < |rows| && rule !in rows[..k]
    ensures rows[0] != rule && rule !in rows[1..][..k - 1]
    ensures rows[..k] + rows[k + 1..] == [rows[0]] + (rows[1..][..k - 1] + rows[1..][k..])
  {
    assert rows[0] == rows[..k][0];
    assert rows[1..][..k - 1] == rows[1..k];
    assert rows[..k] == [rows[0]] + rows[1..][..k - 1];
    assert rows[k + 1..] == rows[1..][k..];
  }

  /** A container lookup that only ever answers with a rule the container holds. */
  ghost predicate ReturnsHeldRule(lookup: (multiset<FilterResponse>, ContentRequest) -> Option<FilterResponse>)
  {
    forall rules, request :: lookup(rules, request).Some? ==> lookup(rules, request).value in rules
  }

  /** `UserFilterContainer().also { rows.forEach(it::add) }`: a new container
      holding every row, each added once, in repository order. */
  method NewContainer(rows: seq<FilterResponse>) returns (container: multiset<FilterResponse>, ghost adds: seq<Call>)
    ensures container == multiset(rows)
    ensures |adds| == |rows|
    ensures forall i :: 0 <= i < |rows| ==> adds[i] == ContainerAdd(rows[i])
  {
    container, adds := multiset{}, [];
    for i := 0 to |rows|
      invariant container == multiset(rows[..i])
      invariant |adds| == i
      invariant forall k :: 0 <= k < i ==> adds[k] == ContainerAdd(rows[k])
    {
      assert rows[..i + 1] == rows[..i] + [rows[i]];
      container := container + multiset{rows[i]};
      adds := adds + [ContainerAdd(rows[i])];
    }
    assert rows[..|rows|] == rows;
  }

  class AbpUserRules {
    /** Rows of the user rules repository, in getAllRules() order. */
    var stored: seq<FilterResponse>
    /** Whether the lazy `userRules` container exists yet. */
    var loaded: bool
    /** The rules in the `userRules` container, once it exists. */
    var container: multiset<FilterResponse>
    /** Calls made on the container and on the repository, oldest first. */
    ghost var calls: seq<Call>

    /** Memory and repository agree: the container holds exactly the stored rows. */
    ghost predicate Synced()
      reads this
    {
      loaded ==> container == multiset(stored)
    }

    /** The rules of the container the lazy accessor yields: the existing
        container, or a new one loaded from the repository. */
    ghost function Rules(): multiset<FilterResponse>
      reads this
    {
      if loaded then container else multiset(stored)
    }

    /** The calls the lazy accessor makes: none once the container exists,
        otherwise getAllRules() and one add per row. */
    ghost function LoadCalls(): seq<Call>
      reads this
    {
      if loaded then [] else [RepositoryGetAllRules] + AddCalls(stored)
    }

    /** The injected constructor: the container is not created yet. */
    constructor (repositoryRows: seq<FilterResponse>)
      ensures stored == repositoryRows && !loaded && container == multiset{} && calls == []
      ensures Synced()
    {
      stored := repositoryRows;
      loaded := false;
      container := multiset{};
      calls := [];
    }

    /** `userRules` (by lazy): on first access the container is created from
        every repository row; later accesses return it unchanged. */
    method UserRules()
      modifies this
      ensures loaded && container == old(Rules()) && stored == old(stored)
      ensures calls == old(calls) + old(LoadCalls())
      ensures !old(loaded) ==> Synced()
      ensures old(Synced()) ==> Synced()
    {
      if !loaded {
        var rows := stored;
        calls := calls + [RepositoryGetAllRules];
        var rules, adds := NewContainer(rows);
        assert adds == AddCalls(rows);
        container, loaded := rules, true;
        calls := calls + adds;
      }
    }

    /** `userRules.add(rule)`: the lazy accessor, then one add on the container. */
    method AddToContainer(rule: FilterResponse)
      modifies this
      ensures loaded && container == old(Rules()) + multiset{rule} && stored == old(stored)
      ensures calls == old(calls) + old(LoadCalls()) + [ContainerAdd(rule)]
    {
      UserRules();
      container := container + multiset{rule};
      calls := calls + [ContainerAdd(rule)];
    }

    /** UserRulesRepository.addRules, as far as this model sees it: the rows
        are appended unless the write throws. */
    method StoreRules(rules: seq<FilterResponse>, throws: bool)
      modifies this`stored, this`calls
      ensures stored == if throws then old(stored) else old(stored) + rules
      ensures calls == old(calls) + [Call.RepositoryAddRules(rules)]
    {
      calls := calls + [Call.RepositoryAddRules(rules)];
      if !throws {
        stored := stored + rules;
      }
    }

    /** UserRulesRepository.removeRule, as far as this model sees it: one
        equal row is deleted unless the write throws. */
    method DeleteRule(rule: FilterResponse, throws: bool)
      modifies this`stored, this`calls
      ensures stored == if throws then old(stored) else RemoveRow(old(stored), rule)
      ensures calls == old(calls) + [Call.RepositoryRemoveRule(rule)]
    {
      calls := calls + [Call.RepositoryRemoveRule(rule)];
      if !throws {
        stored := RemoveRow(stored, rule);
      }
    }

    /** getResponse: the decision of the rule the container's lookup finds
        (true blocks, false allows), or null when it finds none. */
    method GetResponse(request: ContentRequest, lookup: (multiset<FilterResponse>, ContentRequest) -> Option<FilterResponse>)
      returns (response: Option<bool>)
      modifies this
      ensures loaded && container == old(Rules()) && stored == old(stored)
      ensures calls == old(calls) + old(LoadCalls()) + [ContainerGet(request)]
      ensures response.None? <==> lookup(container, request).None?
      ensures response.Some? ==> response.value == lookup(container, request).value.response
      ensures ReturnsHeldRule(lookup) && response.Some? ==>
                exists rule :: rule in container && rule.response == response.value
      ensures ReturnsHeldRule(lookup) && container == multiset{} ==> response.None?
      ensures old(Synced()) ==> Synced()
    {
      UserRules();
      calls := calls + [ContainerGet(request)];
      var found := lookup(container, request);
      response := ResponseOf(found);
    }

    /** addUserRule: the rule goes into the container first, then the
        one-element list [rule] to the repository; a throwing write leaves the
        container changed (there is no rollback). */
    method AddUserRule(rule: FilterResponse, repositoryThrows: bool)
      modifies this
      ensures loaded && container == old(Rules()) + multiset{rule}
      ensures stored == if repositoryThrows then old(stored) else old(stored) + [rule]
      ensures calls == old(calls) + old(LoadCalls()) + [ContainerAdd(rule), Call.RepositoryAddRules([rule])]
      ensures old(Synced()) && !repositoryThrows ==> Synced()
      ensures old(Synced()) && repositoryThrows ==> !Synced()
    {
      ghost var loadedCalls := calls + LoadCalls();
      UserRules();
      container := container + multiset{rule};
      calls := calls + [ContainerAdd(rule)];
      StoreRules([rule], repositoryThrows);
      assert calls == loadedCalls + [ContainerAdd(rule), Call.RepositoryAddRules([rule])];
      if repositoryThrows {
        AdditionChanges(multiset(stored), rule);
      }
    }

    /** removeUserRule: the rule leaves the container first, then the
        repository; a throwing write leaves the container changed (there is
        no rollback). */
    method RemoveUserRule(rule: FilterResponse, repositoryThrows: bool)
      modifies this
      ensures loaded && container == old(Rules()) - multiset{rule}
      ensures stored == if repositoryThrows then old(stored) else RemoveRow(old(stored), rule)
      ensures calls == old(calls) + old(LoadCalls()) + [ContainerRemove(rule), Call.RepositoryRemoveRule(rule)]
      ensures old(Synced()) && !repositoryThrows ==> Synced()
      ensures old(Synced()) && repositoryThrows ==> (Synced() <==> rule !in old(stored))
    {
      ghost var loadedCalls := calls + LoadCalls();
      UserRules();
      container := container - multiset{rule};
      calls := calls + [ContainerRemove(rule)];
      DeleteRule(rule, repositoryThrows);
      assert calls == loadedCalls + [ContainerRemove(rule), Call.RepositoryRemoveRule(rule)];
      if repositoryThrows {
        RemovalChanges(multiset(stored), rule);
      }
    }

    /** loadUserLists (called from nowhere): reads every row, then adds each
        to the container through the lazy accessor. The first add creates the
        container, which already loads every row, so a non-empty repository
        ends up added twice and the container no longer matches it. */
    method LoadUserLists()
      modifies this
      ensures stored == old(stored)
      ensures loaded <==> old(loaded) || old(stored) != []
      ensures !loaded ==> container == old(container)
      ensures Rules() == old(Rules()) + multiset(old(stored))
      ensures calls == old(calls) + [RepositoryGetAllRules]
                       + (if old(stored) == [] then [] else old(LoadCalls())) + AddCalls(old(stored))
      ensures old(Synced()) ==> (Synced() <==> old(stored) == [])
    {
      var rows := stored;
      calls := calls + [RepositoryGetAllRules];
      AddEach(rows);
      if old(Synced()) {
        DoubledEqualsOnlyWhenEmpty(rows);
      }
    }

    /** `rows.forEach { userRules.add(it) }`: each row added in order, the
        first add going through the lazy accessor. */
    method AddEach(rows: seq<FilterResponse>)
      requires stored == rows
      modifies this
      ensures stored == rows
      ensures loaded <==> old(loaded) || rows != []
      ensures !loaded ==> container == old(container)
      ensures Rules() == old(Rules()) + multiset(rows)
      ensures calls == old(calls) + (if rows == [] then [] else old(LoadCalls())) + AddCalls(rows)
    {
      ghost var rules0, load0, calls0 := Rules(), LoadCalls(), calls;
      for i := 0 to |rows|
        invariant stored == rows
        invariant i == 0 ==> loaded == old(loaded) && container == old(container) && calls == calls0
        invariant i > 0 ==> loaded && container == rules0 + multiset(rows[..i])
        invariant i > 0 ==> calls == calls0 + load0 + AddCalls(rows[..i])
      {
        ghost var done := if i == 0 then [] else AddCalls(rows[..i]);
        assert calls + LoadCalls() == calls0 + load0 + done;
        AddToContainer(rows[i]);
        AddCallsSnoc(rows, i);
        assert calls == calls0 + load0 + (done + [ContainerAdd(rows[i])]);
        assert rows[..i + 1] == rows[..i] + [rows[i]];
      }
      assert rows[..|rows|] == rows;
      if rows == [] {
        assert calls == old(calls) + [] + AddCalls(rows);
      }
    }
  }
}
