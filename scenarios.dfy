/** The behaviour the hook's tests pin down, starting from the seed state. */
module Scenarios {
  import opened TodoData
  import opened SeqFilter
  import opened Text
  import opened TodoLogic

  /** Typing "新しいTodo" and pressing Enter outside composition appends
      {5, "新しいTodo"} as the fifth item and clears the buffer. */
  lemma AddWithEnter()
    ensures var typed := Step(InitialStore, ChangeAddInput("新しいTodo"));
      var r := AddStep(typed, KeyEvent("Enter", false));
      && |r.todos| == 5
      && r.todos[..4] == InitialTodos
      && r.todos[4] == Todo(5, "新しいTodo")
      && r.uniqueId == 5
      && r.addInputValue == ""
  {
  }

  /** A key other than Enter adds nothing and keeps the typed text. */
  lemma AddWithoutEnter(isComposing: bool)
    ensures var typed := Step(InitialStore, ChangeAddInput("テスト"));
      var r := AddStep(typed, KeyEvent("", isComposing));
      |r.todos| == 4 && r.addInputValue == "テスト"
  {
  }

  /** Enter with an empty buffer adds nothing. */
  lemma AddWithEmptyBuffer()
    ensures |AddStep(InitialStore, KeyEvent("Enter", false)).todos| == 4
  {
  }

  /** Enter during composition adds nothing and keeps the typed text. */
  lemma AddWhileComposing()
    ensures var typed := Step(InitialStore, ChangeAddInput("テスト"));
      var r := AddStep(typed, KeyEvent("Enter", true));
      |r.todos| == 4 && r.addInputValue == "テスト"
  {
  }

  /** Confirming the deletion of the first item leaves the other three in
      order; declining leaves all four. */
  lemma DeleteFirst()
    ensures DeleteStep(InitialTodos, 1, true) == InitialTodos[1..]
    ensures DeleteStep(InitialTodos, 1, false) == InitialTodos
  {
    assert InitialTodos == [InitialTodos[0]] + InitialTodos[1..];
    assert forall t :: t in InitialTodos[1..] ==> t.id != 1;
    RemoveAbsentIdIsNoOp(InitialTodos[1..], 1);
  }

  /** A title whose first character, lower-cased, differs from the query's
      does not match. */
  lemma FirstCharMismatch(title: string, query: string)
    requires title != [] && query != []
    requires LowerChar(title[0]) != LowerChar(query[0])
    ensures !MatchesIgnoringCase(title, query)
  {
    assert ToLowerCase(title)[0] == LowerChar(title[0]);
    assert ToLowerCase(query)[0] == LowerChar(query[0]);
  }

  /** Searching for "React" shows exactly the one seed item whose title
      starts with "react" once lower-cased. */
  lemma SearchReact()
    ensures ShowTodoList(InitialTodos, "React") == [Todo(1, "ReactでTodoアプリを作成する")]
  {
    var p := MatchesQuery("React");
    var t0, t1, t2, t3 := InitialTodos[0], InitialTodos[1], InitialTodos[2], InitialTodos[3];
    assert p(t0) by {
      var q := ToLowerCase("React");
      var l := ToLowerCase(t0.title);
      assert |q| == 5;
      forall i | 0 <= i < 5
        ensures l[i] == q[i]
      {
        assert l[i] == LowerChar(t0.title[i]) && q[i] == LowerChar("React"[i]);
      }
      assert l[..5] == q;
    }
    FirstCharMismatch(t1.title, "React");
    FirstCharMismatch(t2.title, "React");
    FirstCharMismatch(t3.title, "React");
    assert InitialTodos == [t0] + [t1] + [t2] + [t3];
    FilterAppendOne([t0] + [t1] + [t2], t3, p);
    FilterAppendOne([t0] + [t1], t2, p);
    FilterAppendOne([t0], t1, p);
    FilterAppendOne([], t0, p);
  }

  /** An empty search shows all four seed items. */
  lemma SearchEmpty()
    ensures ShowTodoList(InitialTodos, "") == InitialTodos
    ensures |ShowTodoList(InitialTodos, "")| == 4
  {
    ShowAllOnEmptySearch(InitialTodos);
  }
}
