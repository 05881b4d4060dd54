/** The state transitions of the todo manager as functions on values: the
    guarded append, the confirmed removal by id and the search view. Both the
    custom hook (module UseTodo) and the root template (module RootTemplate)
    are specified by these functions; the lemmas below relate several steps. */
module TodoLogic {
  import opened TodoData
  import opened SeqFilter
  import opened Text

  /** The two fields of a key-down event the add handler reads: which key was
      pressed and whether an input-method composition is in progress. */
  datatype KeyEvent = KeyEvent(key: string, isComposing: bool)

  /** The state shared by the hook and the template: the todo list, the id
      counter and the add-input buffer. */
  datatype Store = Store(todos: seq<Todo>, uniqueId: int, addInputValue: string)

  /** The state right after initialisation: the seed list, the counter at the
      seed length and an empty add buffer. */
  const InitialStore: Store := Store(InitialTodos, InitialUniqueId, "")

  /** The guard of the add handler: the Enter key, no composition in progress
      and a non-empty buffer (no trimming). */
  predicate AddAccepted(e: KeyEvent, addInputValue: string) {
    e.key == "Enter" && !e.isComposing && addInputValue != ""
  }

  /** The add handler: when the guard holds, mint `uniqueId + 1`, append the
      buffer under that id, advance the counter and clear the buffer;
      otherwise change nothing. */
  function AddStep(s: Store, e: KeyEvent): (r: Store)
    ensures |r.todos| == |s.todos| + (if AddAccepted(e, s.addInputValue) then 1 else 0)
    ensures r.todos[..|s.todos|] == s.todos
    ensures AddAccepted(e, s.addInputValue) ==>
              && r.todos[|s.todos|] == Todo(r.uniqueId, s.addInputValue)
              && r.uniqueId == s.uniqueId + 1
              && r.addInputValue == ""
    ensures !AddAccepted(e, s.addInputValue) ==> r == s
  {
    if AddAccepted(e, s.addInputValue) then
      var nextId := s.uniqueId + 1;
      Store(s.todos + [Todo(nextId, s.addInputValue)], nextId, "")
    else
      s
  }

  /** The text shown by the confirmation dialog: the title in corner brackets
      followed by the question whether to delete it. */
  function ConfirmMessage(title: string): (m: string)
    ensures |m| == |title| + 10
    ensures m[0] == '「' && m[|title| + 1] == '」'
    ensures m[1..|title| + 1] == title
    ensures m[|title| + 2..] == "を削除しますか？"
  {
    "「" + title + "」を削除しますか？"
  }

  /** The filter predicate of the delete handler: keep items with another id. */
  function KeepOther(targetId: int): Todo -> bool {
    (t: Todo) => t.id != targetId
  }

  /** The items whose id differs from `targetId`, in their original order;
      titles play no part. */
  function RemoveById(todos: seq<Todo>, targetId: int): (r: seq<Todo>)
    ensures forall t :: t in r <==> t in todos && t.id != targetId
    ensures IsSubsequence(r, todos)
  {
    FilterIsSubsequence(todos, KeepOther(targetId));
    Filter(todos, KeepOther(targetId))
  }

  /** The delete handler's effect on the list, given the dialog's answer. */
  function DeleteStep(todos: seq<Todo>, targetId: int, confirmed: bool): (r: seq<Todo>)
    ensures confirmed ==> forall t :: t in r <==> t in todos && t.id != targetId
    ensures confirmed ==> IsSubsequence(r, todos)
    ensures !confirmed ==> r == todos
  {
    if confirmed then RemoveById(todos, targetId) else todos
  }

  /** The filter predicate of the search view. */
  function MatchesQuery(searchInputValue: string): Todo -> bool {
    (t: Todo) => MatchesIgnoringCase(t.title, searchInputValue)
  }

  /** The search view: the items whose lower-cased title starts with the
      lower-cased search text, in list order. */
  function ShowTodoList(todos: seq<Todo>, searchInputValue: string): (r: seq<Todo>)
    ensures forall t :: t in r <==> t in todos && MatchesIgnoringCase(t.title, searchInputValue)
    ensures IsSubsequence(r, todos)
  {
    FilterIsSubsequence(todos, MatchesQuery(searchInputValue));
    Filter(todos, MatchesQuery(searchInputValue))
  }

  /** An empty search shows the whole list. */
  lemma ShowAllOnEmptySearch(todos: seq<Todo>)
    ensures ShowTodoList(todos, "") == todos
  {
    forall t | t in todos
      ensures MatchesQuery("")(t)
    {
      assert ToLowerCase("") == "";
    }
    FilterKeepsAll(todos, MatchesQuery(""));
  }

  /** Filters with predicates that agree on every element give the same result. */
  lemma {:induction false} FilterAgreeing(s: seq<Todo>, p: Todo -> bool, q: Todo -> bool)
    requires forall t :: t in s ==> p(t) == q(t)
    ensures Filter(s, p) == Filter(s, q)
  {
    if s != [] {
      assert s[0] in s;
      assert forall t :: t in s[1..] ==> t in s;
      FilterAgreeing(s[1..], p, q);
    }
  }

  /** The case of the search text does not matter. */
  lemma ShowIgnoresSearchCase(todos: seq<Todo>, searchInputValue: string)
    ensures ShowTodoList(todos, searchInputValue) == ShowTodoList(todos, ToLowerCase(searchInputValue))
  {
    forall t | t in todos
      ensures MatchesQuery(searchInputValue)(t) == MatchesQuery(ToLowerCase(searchInputValue))(t)
    {
      QueryCaseIrrelevant(t.title, searchInputValue);
    }
    FilterAgreeing(todos, MatchesQuery(searchInputValue), MatchesQuery(ToLowerCase(searchInputValue)));
  }

  /** After an add, the view is the old view, followed by the new item when
      its title matches the search: an add never disturbs what was shown. */
  lemma ShowAfterAdd(s: Store, e: KeyEvent, searchInputValue: string)
    ensures var r := AddStep(s, e);
      ShowTodoList(r.todos, searchInputValue)
      == ShowTodoList(s.todos, searchInputValue)
         + (if AddAccepted(e, s.addInputValue) && MatchesIgnoringCase(s.addInputValue, searchInputValue)
            then [Todo(s.uniqueId + 1, s.addInputValue)] else [])
  {
    if AddAccepted(e, s.addInputValue) {
      FilterAppendOne(s.todos, Todo(s.uniqueId + 1, s.addInputValue), MatchesQuery(searchInputValue));
    }
  }

  /** Removing an id that no item carries leaves the list as it is. */
  lemma RemoveAbsentIdIsNoOp(todos: seq<Todo>, targetId: int)
    requires forall t :: t in todos ==> t.id != targetId
    ensures RemoveById(todos, targetId) == todos
  {
    FilterKeepsAll(todos, KeepOther(targetId));
  }

  /** When ids are distinct, removing an id that is present shortens the list
      by exactly one. */
  lemma {:induction false} RemovePresentIdShrinksByOne(todos: seq<Todo>, targetId: int)
    requires IdsDistinct(todos)
    requires exists t :: t in todos && t.id == targetId
    ensures |RemoveById(todos, targetId)| == |todos| - 1
  {
    var rest := todos[1..];
    assert RemoveById(todos, targetId)
        == (if KeepOther(targetId)(todos[0]) then [todos[0]] else []) + RemoveById(rest, targetId);
    if todos[0].id == targetId {
      forall t | t in rest
        ensures t.id != targetId
      {
        var j :| 0 <= j < |rest| && rest[j] == t;
        assert todos[j + 1] == t;
      }
      RemoveAbsentIdIsNoOp(rest, targetId);
    } else {
      var t :| t in todos && t.id == targetId;
      assert t in rest by {
        var j :| 0 <= j < |todos| && todos[j] == t;
        assert j != 0;
        assert rest[j - 1] == t;
      }
      RemovePresentIdShrinksByOne(rest, targetId);
    }
  }

  /** A list obtained by dropping items from a list with distinct ids has
      distinct ids. */
  lemma {:induction false} SubsequenceKeepsIdsDistinct(a: seq<Todo>, b: seq<Todo>)
    requires IsSubsequence(a, b)
    requires IdsDistinct(b)
    ensures IdsDistinct(a)
    decreases |b|
  {
    if a != [] {
      if a[0] == b[0] && IsSubsequence(a[1..], b[1..]) {
        SubsequenceKeepsIdsDistinct(a[1..], b[1..]);
        SubsequenceElements(a[1..], b[1..]);
        forall j | 0 < j < |a|
          ensures a[0].id != a[j].id
        {
          assert a[j] == a[1..][j - 1];
          assert a[j] in a[1..];
          assert a[j] in b[1..];
          var k :| 0 <= k < |b[1..]| && b[1..][k] == a[j];
          assert b[k + 1] == a[j];
        }
        forall i, j | 0 <= i < j < |a|
          ensures a[i].id != a[j].id
        {
          if i > 0 {
            assert a[i] == a[1..][i - 1] && a[j] == a[1..][j - 1];
          }
        }
      } else {
        SubsequenceKeepsIdsDistinct(a, b[1..]);
      }
    }
  }

  /** The invariant behind fresh ids: ids are pairwise distinct and none
      exceeds the counter. */
  ghost predicate FreshCounter(s: Store) {
    IdsDistinct(s.todos) && IdsAtMost(s.todos, s.uniqueId)
  }

  /** The initial state satisfies the invariant. */
  lemma InitialStoreFresh()
    ensures FreshCounter(InitialStore)
  {
    SeedIdsFresh();
  }

  /** An accepted add mints an id above every id already in the list, and
      the invariant is kept. */
  lemma AddKeepsFreshCounter(s: Store, e: KeyEvent)
    requires FreshCounter(s)
    ensures FreshCounter(AddStep(s, e))
    ensures AddAccepted(e, s.addInputValue) ==>
              forall t :: t in s.todos ==> t.id < AddStep(s, e).uniqueId
  {
    var r := AddStep(s, e);
    if AddAccepted(e, s.addInputValue) {
      forall i, j | 0 <= i < j < |r.todos|
        ensures r.todos[i].id != r.todos[j].id
      {
        assert r.todos[i] == s.todos[i];
        if j < |s.todos| {
          assert r.todos[j] == s.todos[j];
        } else {
          assert s.todos[i] in s.todos;
        }
      }
    }
  }

  /** A delete keeps the invariant, whatever the answer and the id. */
  lemma DeleteKeepsFreshCounter(s: Store, targetId: int, confirmed: bool)
    requires FreshCounter(s)
    ensures FreshCounter(s.(todos := DeleteStep(s.todos, targetId, confirmed)))
  {
    if confirmed {
      SubsequenceKeepsIdsDistinct(RemoveById(s.todos, targetId), s.todos);
    }
  }

  /** The counter starting at the seed length is only safe for a seed whose
      ids do not exceed its length: with the seed [Todo(2, "a")] the counter
      starts at 1 and the first add mints 2, an id already taken. */
  lemma SeedLengthCounterCanCollide()
    ensures var seed := [Todo(2, "a")];
      var r := AddStep(Store(seed, |seed|, "b"), KeyEvent("Enter", false));
      !IdsDistinct(r.todos)
  {
    var seed := [Todo(2, "a")];
    var r := AddStep(Store(seed, |seed|, "b"), KeyEvent("Enter", false));
    assert r.todos[0].id == r.todos[1].id;
  }

  /** One user action on the list, the counter or the add buffer. The
      search buffer is left out: it does not affect any of them. */
  datatype Action =
    | ChangeAddInput(value: string)
    | PressKey(event: KeyEvent)
    | Delete(targetId: int, confirmed: bool)

  function Step(s: Store, a: Action): Store {
    match a
    case ChangeAddInput(value) => s.(addInputValue := value)
    case PressKey(e) => AddStep(s, e)
    case Delete(targetId, confirmed) => s.(todos := DeleteStep(s.todos, targetId, confirmed))
  }

  /** The state after a sequence of actions. */
  function Run(s: Store, actions: seq<Action>): Store
    decreases |actions|
  {
    if actions == [] then s else Run(Step(s, actions[0]), actions[1..])
  }

  /** The ids minted along a sequence of actions, in the order minted. */
  function MintedIds(s: Store, actions: seq<Action>): seq<int>
    decreases |actions|
  {
    if actions == [] then []
    else
      var minted := if actions[0].PressKey? && AddAccepted(actions[0].event, s.addInputValue)
                    then [s.uniqueId + 1] else [];
      minted + MintedIds(Step(s, actions[0]), actions[1..])
  }

  /** Every sequence of actions keeps the invariant. */
  lemma {:induction false} RunKeepsFreshCounter(s: Store, actions: seq<Action>)
    requires FreshCounter(s)
    ensures FreshCounter(Run(s, actions))
    decreases |actions|
  {
    if actions != [] {
      match actions[0] {
        case ChangeAddInput(_) =>
        case PressKey(e) => AddKeepsFreshCounter(s, e);
        case Delete(targetId, confirmed) => DeleteKeepsFreshCounter(s, targetId, confirmed);
      }
      RunKeepsFreshCounter(Step(s, actions[0]), actions[1..]);
    }
  }

  /** The counter never goes down. */
  lemma {:induction false} RunCounterMonotone(s: Store, actions: seq<Action>)
    ensures s.uniqueId <= Run(s, actions).uniqueId
    decreases |actions|
  {
    if actions != [] {
      RunCounterMonotone(Step(s, actions[0]), actions[1..]);
    }
  }

  /** Every id minted by a run lies above the counter's value before the run
      and not above its value after it. */
  lemma {:induction false} MintedIdsBounded(s: Store, actions: seq<Action>)
    ensures forall id :: id in MintedIds(s, actions) ==> s.uniqueId < id <= Run(s, actions).uniqueId
    decreases |actions|
  {
    if actions != [] {
      var next := Step(s, actions[0]);
      MintedIdsBounded(next, actions[1..]);
      RunCounterMonotone(next, actions[1..]);
      assert s.uniqueId <= next.uniqueId;
    }
  }

  /** Putting a value in front of a strictly increasing sequence of larger
      values keeps it strictly increasing. */
  lemma PrependSmallest(x: int, later: seq<int>)
    requires forall i, j :: 0 <= i < j < |later| ==> later[i] < later[j]
    requires forall id :: id in later ==> x < id
    ensures forall i, j :: 0 <= i < j < |[x] + later| ==> ([x] + later)[i] < ([x] + later)[j]
  {
    var m := [x] + later;
    assert m[1..] == later;
    forall i, j | 0 <= i < j < |m|
      ensures m[i] < m[j]
    {
      assert m[j] == later[j - 1];
      assert later[j - 1] in later;
    }
  }

  /** Successive adds mint strictly increasing ids. */
  lemma {:induction false} MintedIdsIncrease(s: Store, actions: seq<Action>)
    ensures forall i, j :: 0 <= i < j < |MintedIds(s, actions)| ==>
              MintedIds(s, actions)[i] < MintedIds(s, actions)[j]
    decreases |actions|
  {
    if actions != [] {
      var next := Step(s, actions[0]);
      var later := MintedIds(next, actions[1..]);
      MintedIdsIncrease(next, actions[1..]);
      if actions[0].PressKey? && AddAccepted(actions[0].event, s.addInputValue) {
        MintedIdsBounded(next, actions[1..]);
        assert next.uniqueId == s.uniqueId + 1;
        assert MintedIds(s, actions) == [s.uniqueId + 1] + later;
        PrependSmallest(s.uniqueId + 1, later);
      } else {
        assert MintedIds(s, actions) == later;
      }
    }
  }

  /** What `MintedIds` records for one action is the id of the item that
      action appends: an accepted key press appends one item carrying the
      recorded id, any other action appends nothing and records nothing. */
  lemma MintedIdIsAppendedId(s: Store, a: Action)
    ensures var r := Step(s, a);
      if a.PressKey? && AddAccepted(a.event, s.addInputValue) then
        && |r.todos| == |s.todos| + 1
        && MintedIds(s, [a]) == [r.todos[|s.todos|].id]
      else
        MintedIds(s, [a]) == [] && (a.ChangeAddInput? || a.PressKey? ==> r.todos == s.todos)
  {
    assert [a][1..] == [];
  }

  /** From the seed, whatever the user does, ids stay pairwise distinct. */
  lemma ReachableIdsDistinct(actions: seq<Action>)
    ensures IdsDistinct(Run(InitialStore, actions).todos)
  {
    InitialStoreFresh();
    RunKeepsFreshCounter(InitialStore, actions);
  }
}
