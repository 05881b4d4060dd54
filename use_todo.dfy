/** The `useTodo` custom hook: one todo manager that owns the list, the id
    counter, the add-input buffer and the search buffer, and updates them in
    place through its handlers. Each handler is one atomic transition on the
    latest state; the search view is a function of the state. */
module UseTodo {
  import opened TodoData
  import opened SeqFilter
  import opened Text
  import opened TodoLogic

  class TodoManager {
    var originalTodoList: seq<Todo>
    var addInputValue: string
    var uniqueId: int
    var searchInputValue: string

    /** The list, counter and add buffer as a value. */
    function Snapshot(): Store
      reads this
    {
      Store(originalTodoList, uniqueId, addInputValue)
    }

    /** A fresh manager: the seed list, both buffers empty, the counter at
        the seed length; its ids are fresh with respect to the counter. */
    constructor ()
      ensures originalTodoList == InitialTodos
      ensures addInputValue == "" && searchInputValue == ""
      ensures uniqueId == InitialUniqueId
      ensures FreshCounter(Snapshot())
    {
      originalTodoList := InitialTodos;
      addInputValue := "";
      uniqueId := InitialUniqueId;
      searchInputValue := "";
      InitialStoreFresh();
    }

    /** `showTodoList`: the items whose lower-cased title starts with the
        lower-cased search text, in list order; everything when the search
        text is empty. */
    function ShowTodoList(): (r: seq<Todo>)
      reads this
      ensures forall t :: t in r <==> t in originalTodoList && MatchesIgnoringCase(t.title, searchInputValue)
      ensures IsSubsequence(r, originalTodoList)
      ensures searchInputValue == "" ==> r == originalTodoList
    {
      ShowAllOnEmptySearch(originalTodoList);
      TodoLogic.ShowTodoList(originalTodoList, searchInputValue)
    }

    /** Sets the add buffer to exactly `value`; nothing else changes. */
    method OnChangeAddInputValue(value: string)
      modifies this
      ensures addInputValue == value
      ensures Snapshot() == Step(old(Snapshot()), ChangeAddInput(value))
      ensures originalTodoList == old(originalTodoList) && uniqueId == old(uniqueId)
      ensures searchInputValue == old(searchInputValue)
    {
      addInputValue := value;
    }

    /** Sets the search buffer to exactly `value`; nothing else changes. */
    method SetSearchInputValue(value: string)
      modifies this
      ensures searchInputValue == value
      ensures Snapshot() == old(Snapshot())
    {
      searchInputValue := value;
    }

    /** The add handler. With Enter, no composition and a non-empty buffer it
        appends the buffer under the id `uniqueId + 1`, advances the counter
        to that id and clears the buffer; otherwise nothing changes. The
        search buffer is never touched, and fresh ids stay fresh. */
    method HandleAddTodo(e: KeyEvent)
      modifies this
      ensures Snapshot() == AddStep(old(Snapshot()), e)
      ensures Snapshot() == Step(old(Snapshot()), PressKey(e))
      ensures AddAccepted(e, old(addInputValue)) ==>
                && originalTodoList == old(originalTodoList) + [Todo(old(uniqueId) + 1, old(addInputValue))]
                && uniqueId == old(uniqueId) + 1
                && addInputValue == ""
      ensures !AddAccepted(e, old(addInputValue)) ==>
                originalTodoList == old(originalTodoList) && uniqueId == old(uniqueId)
                && addInputValue == old(addInputValue)
      ensures searchInputValue == old(searchInputValue)
      ensures old(FreshCounter(Snapshot())) ==> FreshCounter(Snapshot())
    {
      if e.key == "Enter" && !e.isComposing && addInputValue != "" {
        var nextId := uniqueId + 1;
        var newTodoList := originalTodoList + [Todo(nextId, addInputValue)];
        originalTodoList := newTodoList;
        uniqueId := nextId;
        addInputValue := "";
      }
      if old(FreshCounter(Snapshot())) {
        AddKeepsFreshCounter(old(Snapshot()), e);
      }
    }

    /** The delete handler. It asks `confirm` with a message naming
        `targetTitle`; on yes it keeps exactly the items whose id is not
        `targetId`, in order, and on no it changes nothing. The title is used
        for the message only. Counter and buffers never change. */
    method HandleDeleteTodo(targetId: int, targetTitle: string, confirm: string -> bool)
      modifies this
      ensures Snapshot() == Step(old(Snapshot()), Delete(targetId, confirm(ConfirmMessage(targetTitle))))
      ensures originalTodoList == DeleteStep(old(originalTodoList), targetId, confirm(ConfirmMessage(targetTitle)))
      ensures confirm(ConfirmMessage(targetTitle)) ==>
                && (forall t :: t in originalTodoList <==> t in old(originalTodoList) && t.id != targetId)
                && IsSubsequence(originalTodoList, old(originalTodoList))
      ensures !confirm(ConfirmMessage(targetTitle)) ==> originalTodoList == old(originalTodoList)
      ensures uniqueId == old(uniqueId) && addInputValue == old(addInputValue)
      ensures searchInputValue == old(searchInputValue)
      ensures old(FreshCounter(Snapshot())) ==> FreshCounter(Snapshot())
    {
      var confirmed := confirm(ConfirmMessage(targetTitle));
      if confirmed {
        var newTodoList := RemoveById(originalTodoList, targetId);
        originalTodoList := newTodoList;
      }
      if old(FreshCounter(Snapshot())) {
        DeleteKeepsFreshCounter(old(Snapshot()), targetId, confirmed);
      }
    }
  }
}
