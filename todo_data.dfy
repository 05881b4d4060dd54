/** The todo item and the seed data every todo manager starts from. */
module TodoData {

  /** One todo: its id and its title. Neither changes once the item exists. */
  datatype Todo = Todo(id: int, title: string)

  /** The seed list, in display order. */
  const InitialTodos: seq<Todo> := [
    Todo(1, "ReactでTodoアプリを作成する"),
    Todo(2, "CSS Modulesを理解する"),
    Todo(3, "コンポーネント設計を学ぶ"),
    Todo(4, "状態管理を実装する")
  ]

  /** The starting value of the id counter: the length of the seed list
      (not its largest id). */
  const InitialUniqueId: int := |InitialTodos|

  /** No two items of the list share an id. */
  ghost predicate IdsDistinct(todos: seq<Todo>) {
    forall i, j :: 0 <= i < j < |todos| ==> todos[i].id != todos[j].id
  }

  /** Every id in the list is at most `bound`. */
  ghost predicate IdsAtMost(todos: seq<Todo>, bound: int) {
    forall t :: t in todos ==> t.id <= bound
  }

  /** The seed has four items, with ids 1, 2, 3, 4 in that order, and the
      counter starts at its length, 4. */
  lemma SeedShape()
    ensures |InitialTodos| == 4
    ensures forall i :: 0 <= i < |InitialTodos| ==> InitialTodos[i].id == i + 1
    ensures InitialUniqueId == |InitialTodos| == 4
  {
  }

  /** The seed ids are pairwise distinct and none exceeds the starting
      counter, so the first id the counter mints (5) is fresh. */
  lemma SeedIdsFresh()
    ensures IdsDistinct(InitialTodos)
    ensures IdsAtMost(InitialTodos, InitialUniqueId)
  {
    SeedShape();
  }
}
