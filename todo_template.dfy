/** The root `TodoTemplate` component: the earlier form of the manager, which
    owns the list, the id counter and the add buffer itself (no search) and
    hands the unfiltered list to the list component. Its handlers are the
    same transitions as the hook's. */
module RootTemplate {
  import opened TodoData
  import opened SeqFilter
  import opened TodoLogic

  class TodoTemplate {
    var originalTodoList: seq<Todo>
    var addInputValue: string
    var uniqueId: int

    /** The list, counter and add buffer as a value. */
    function Snapshot(): Store
      reads this
    {
      Store(originalTodoList, uniqueId, addInputValue)
    }

    /** The initial state: the seed list, an empty add buffer and the counter
        at the seed length. */
    constructor ()
      ensures Snapshot() == InitialStore
      ensures originalTodoList == InitialTodos && addInputValue == "" && uniqueId == InitialUniqueId
      ensures FreshCounter(Snapshot())
    {
      originalTodoList := InitialTodos;
      addInputValue := "";
      uniqueId := InitialUniqueId;
      InitialStoreFresh();
    }

    /** Replaces the add buffer with exactly `value`; nothing else changes. */
    method OnChangeAddInputValue(value: string)
      modifies this
      ensures addInputValue == value
      ensures Snapshot() == Step(old(Snapshot()), ChangeAddInput(value))
      ensures originalTodoList == old(originalTodoList) && uniqueId == old(uniqueId)
    {
      addInputValue := value;
    }

    /** The add handler: only Enter, outside composition, with a non-empty
        buffer appends `{uniqueId + 1, buffer}` after the existing items,
        sets the counter to that id and clears the buffer; any other event
        leaves all state unchanged. */
    method HandleAddTodo(e: KeyEvent)
      modifies this
      ensures Snapshot() == AddStep(old(Snapshot()), e)
      ensures Snapshot() == Step(old(Snapshot()), PressKey(e))
      ensures AddAccepted(e, old(addInputValue)) ==>
                && originalTodoList == old(originalTodoList) + [Todo(old(uniqueId) + 1, old(addInputValue))]
                && uniqueId == old(uniqueId) + 1
                && addInputValue == ""
      ensures !AddAccepted(e, old(addInputValue)) ==>
                originalTodoList == old(originalTodoList) && uniqueId == old(uniqueId)
                && addInputValue == old(addInputValue)
      ensures old(FreshCounter(Snapshot())) ==> FreshCounter(Snapshot())
    {
      if e.key == "Enter" && !e.isComposing && addInputValue != "" {
        var nextId := uniqueId + 1;
        var newTodoList := originalTodoList + [Todo(nextId, addInputValue)];
        originalTodoList := newTodoList;
        uniqueId := nextId;
        addInputValue := "";
      }
      if old(FreshCounter(Snapshot())) {
        AddKeepsFreshCounter(old(Snapshot()), e);
      }
    }

    /** The delete handler: after a yes from `confirm` every item with id
        `targetId` is gone and the rest keep their order (an absent id
        changes nothing); after a no nothing changes. */
    method HandleDeleteTodo(targetId: int, targetTitle: string, confirm: string -> bool)
      modifies this
      ensures Snapshot() == Step(old(Snapshot()), Delete(targetId, confirm(ConfirmMessage(targetTitle))))
      ensures originalTodoList == DeleteStep(old(originalTodoList), targetId, confirm(ConfirmMessage(targetTitle)))
      ensures confirm(ConfirmMessage(targetTitle)) ==>
                && (forall t :: t in originalTodoList <==> t in old(originalTodoList) && t.id != targetId)
                && IsSubsequence(originalTodoList, old(originalTodoList))
      ensures (confirm(ConfirmMessage(targetTitle)) && forall t :: t in old(originalTodoList) ==> t.id != targetId) ==>
                originalTodoList == old(originalTodoList)
      ensures !confirm(ConfirmMessage(targetTitle)) ==> originalTodoList == old(originalTodoList)
      ensures uniqueId == old(uniqueId) && addInputValue == old(addInputValue)
      ensures old(FreshCounter(Snapshot())) ==> FreshCounter(Snapshot())
    {
      var confirmed := confirm(ConfirmMessage(targetTitle));
      if confirmed {
        ghost var absent := forall t :: t in originalTodoList ==> t.id != targetId;
        if absent {
          RemoveAbsentIdIsNoOp(originalTodoList, targetId);
        }
        var newTodoList := RemoveById(originalTodoList, targetId);
        originalTodoList := newTodoList;
      }
      if old(FreshCounter(Snapshot())) {
        DeleteKeepsFreshCounter(old(Snapshot()), targetId, confirmed);
      }
    }
  }
}
