/** The to-do store of the application root: the ordered task list, the
    list of ids of completed tasks, the creation form with its validation
    rule, and the counters and labels derived from the two lists.

    The pure part (tasks, the two `filter` calls, the transitions, the
    derived labels) is written as functions with lemmas about them; the
    component itself is the class `App`, whose fields are the state cells
    and whose methods are the event handlers: the create, toggle and
    delete handlers are each proved to perform exactly the transition its
    function describes, and the submit handler performs `Create` or
    nothing, as validation decides. */
module TodoApp {
  import Decimal

  datatype Option<T> = None | Some(value: T)

  /** A to-do item: an opaque id and the text the user typed. */
  datatype Task = Task(id: string, description: string)

  /** The two state cells of the application root. */
  datatype Store = Store(tasks: seq<Task>, completeTasksIds: seq<string>)

  /** The message attached to the description field when it is empty. */
  const RequiredMessage: string := "Descrição é obrigatória."

  /** The form's default value for the description field. */
  const DefaultDescription: string := ""

  // ---------------------------------------------------------------------
  // Sequences of ids

  /** Number of occurrences of `x` in `s`. */
  function Count(s: seq<string>, x: string): nat
    decreases |s|
  {
    if s == [] then 0 else (if s[0] == x then 1 else 0) + Count(s[1..], x)
  }

  lemma {:induction false} CountAppend(a: seq<string>, b: seq<string>, x: string)
    ensures Count(a + b, x) == Count(a, x) + Count(b, x)
    decreases |a|
  {
    if a != [] {
      assert (a + b)[0] == a[0];
      assert (a + b)[1..] == a[1..] + b;
      CountAppend(a[1..], b, x);
    } else {
      assert a + b == b;
    }
  }

  lemma CountSingle(y: string, x: string)
    ensures Count([y], x) == if y == x then 1 else 0
  {
  }

  lemma {:induction false} CountZero(s: seq<string>, x: string)
    ensures Count(s, x) == 0 <==> x !in s
    decreases |s|
  {
    if s != [] {
      CountZero(s[1..], x);
    }
  }

  /** The ids of `ts`, in order. */
  function Ids(ts: seq<Task>): (r: seq<string>)
    ensures |r| == |ts|
    decreases |ts|
  {
    if ts == [] then [] else [ts[0].id] + Ids(ts[1..])
  }

  lemma {:induction false} IdsAppend(a: seq<Task>, b: seq<Task>)
    ensures Ids(a + b) == Ids(a) + Ids(b)
    decreases |a|
  {
    if a != [] {
      assert (a + b)[0] == a[0];
      assert (a + b)[1..] == a[1..] + b;
      IdsAppend(a[1..], b);
    } else {
      assert a + b == b;
    }
  }

  /** `values.filter((value) => value !== id)` on the completed ids. */
  function WithoutId(values: seq<string>, id: string): (r: seq<string>)
    ensures forall x :: x in r <==> x in values && x != id
    ensures |r| == |values| - Count(values, id)
    ensures id !in values ==> r == values
    decreases |values|
  {
    if values == [] then []
    else (if values[0] == id then [] else [values[0]]) + WithoutId(values[1..], id)
  }

  /** `values.filter((value) => value.id !== id)` on the tasks. */
  function WithoutTask(values: seq<Task>, id: string): (r: seq<Task>)
    ensures forall t :: t in r <==> t in values && t.id != id
    decreases |values|
  {
    if values == [] then []
    else if values[0].id == id then WithoutTask(values[1..], id)
    else
      var r := [values[0]] + WithoutTask(values[1..], id);
      assert r[1..] == WithoutTask(values[1..], id);
      r
  }

  /** Filtering out an id no task has returns the same tasks. */
  lemma {:induction false} WithoutUnknownTask(values: seq<Task>, id: string)
    requires id !in Ids(values)
    ensures WithoutTask(values, id) == values
    decreases |values|
  {
    if values != [] {
      WithoutUnknownTask(values[1..], id);
      assert values == [values[0]] + values[1..];
    }
  }

  /** The ids left after filtering the tasks are the ids filtered. */
  lemma {:induction false} IdsWithoutTask(values: seq<Task>, id: string)
    ensures Ids(WithoutTask(values, id)) == WithoutId(Ids(values), id)
    decreases |values|
  {
    if values != [] {
      IdsWithoutTask(values[1..], id);
      if values[0].id != id {
        var r := [values[0]] + WithoutTask(values[1..], id);
        assert r[1..] == WithoutTask(values[1..], id);
      }
    }
  }

  /** Filtering keeps every other id with all its occurrences and drops
      every occurrence of the removed one. */
  lemma {:induction false} WithoutIdCount(values: seq<string>, id: string, x: string)
    ensures Count(WithoutId(values, id), x) == if x == id then 0 else Count(values, x)
    decreases |values|
  {
    if values != [] {
      var head := if values[0] == id then [] else [values[0]];
      WithoutIdCount(values[1..], id, x);
      CountAppend(head, WithoutId(values[1..], id), x);
    }
    CountZero(WithoutId(values, id), id);
  }

  /** Filtering works element by element, left to right: the relative
      order of what is kept is the order of the input. */
  lemma {:induction false} WithoutIdAppend(a: seq<string>, b: seq<string>, id: string)
    ensures WithoutId(a + b, id) == WithoutId(a, id) + WithoutId(b, id)
    decreases |a|
  {
    if a != [] {
      assert (a + b)[0] == a[0];
      assert (a + b)[1..] == a[1..] + b;
      WithoutIdAppend(a[1..], b, id);
    } else {
      assert a + b == b;
    }
  }

  lemma {:induction false} WithoutTaskAppend(a: seq<Task>, b: seq<Task>, id: string)
    ensures WithoutTask(a + b, id) == WithoutTask(a, id) + WithoutTask(b, id)
    decreases |a|
  {
    if a == [] {
      assert a + b == b;
    } else {
      var ab := a + b;
      assert ab[0] == a[0];
      assert ab[1..] == a[1..] + b;
      WithoutTaskAppend(a[1..], b, id);
      if a[0].id == id {
        assert WithoutTask(ab, id) == WithoutTask(ab[1..], id);
        assert WithoutTask(a, id) == WithoutTask(a[1..], id);
      } else {
        assert WithoutTask(ab, id) == [a[0]] + WithoutTask(ab[1..], id);
        assert WithoutTask(a, id) == [a[0]] + WithoutTask(a[1..], id);
      }
    }
  }

  // ---------------------------------------------------------------------
  // Invariants of the store

  /** No two tasks share an id (what the id generator guarantees). */
  predicate UniqueIds(ts: seq<Task>) {
    forall x :: x in Ids(ts) ==> Count(Ids(ts), x) <= 1
  }

  /** Every completed id is the id of a task in the list. */
  predicate CompletedAreTasks(s: Store) {
    forall x :: x in s.completeTasksIds ==> x in Ids(s.tasks)
  }

  predicate Consistent(s: Store) {
    UniqueIds(s.tasks) && CompletedAreTasks(s)
  }

  // ---------------------------------------------------------------------
  // Transitions

  /** `createTask`: append the new task; the completed ids do not change. */
  function Create(s: Store, id: string, description: string): Store {
    Store(s.tasks + [Task(id, description)], s.completeTasksIds)
  }

  /** `handleTaskStateChange`: append the id when checked, remove all its
      occurrences when unchecked. */
  function ToggleComplete(s: Store, complete: bool, id: string): Store {
    if complete then Store(s.tasks, s.completeTasksIds + [id])
    else Store(s.tasks, WithoutId(s.completeTasksIds, id))
  }

  /** `handleDeleteTask`: filter the id out of both lists. */
  function Delete(s: Store, id: string): Store {
    Store(WithoutTask(s.tasks, id), WithoutId(s.completeTasksIds, id))
  }

  /** Creating a task with a fresh id adds exactly that task, at the end,
      and keeps the store consistent. */
  lemma CreateFacts(s: Store, id: string, description: string)
    requires id !in Ids(s.tasks)
    ensures var s' := Create(s, id, description);
      && |s'.tasks| == |s.tasks| + 1
      && s'.tasks[..|s.tasks|] == s.tasks
      && s'.tasks[|s.tasks|] == Task(id, description)
      && s'.completeTasksIds == s.completeTasksIds
      && Ids(s'.tasks) == Ids(s.tasks) + [id]
      && (Consistent(s) ==> Consistent(s'))
  {
    var s' := Create(s, id, description);
    IdsAppend(s.tasks, [Task(id, description)]);
    forall x ensures Count(Ids(s'.tasks), x) == Count(Ids(s.tasks), x) + (if x == id then 1 else 0) {
      CountAppend(Ids(s.tasks), [id], x);
      CountSingle(id, x);
    }
    CountZero(Ids(s.tasks), id);
  }

  /** Checking a row appends its id once more, even when it is already
      there: the operation is not idempotent. Nothing else changes. */
  lemma ToggleOnAppends(s: Store, id: string)
    ensures var s' := ToggleComplete(s, true, id);
      && s'.tasks == s.tasks
      && s'.completeTasksIds == s.completeTasksIds + [id]
      && |s'.completeTasksIds| == |s.completeTasksIds| + 1
      && Count(s'.completeTasksIds, id) == Count(s.completeTasksIds, id) + 1
      && (forall x :: x != id ==> Count(s'.completeTasksIds, x) == Count(s.completeTasksIds, x))
      && ToggleComplete(s', true, id) != s'
  {
    forall x ensures Count(s.completeTasksIds + [id], x) == Count(s.completeTasksIds, x) + (if x == id then 1 else 0) {
      CountAppend(s.completeTasksIds, [id], x);
      CountSingle(id, x);
    }
  }

  /** Unchecking a row removes every occurrence of its id and keeps every
      other id; it is idempotent, and a no-op when the id is absent. */
  lemma ToggleOffRemoves(s: Store, id: string)
    ensures var s' := ToggleComplete(s, false, id);
      && s'.tasks == s.tasks
      && id !in s'.completeTasksIds
      && |s'.completeTasksIds| == |s.completeTasksIds| - Count(s.completeTasksIds, id)
      && (forall x :: x != id ==> Count(s'.completeTasksIds, x) == Count(s.completeTasksIds, x))
      && (id !in s.completeTasksIds ==> s' == s)
      && ToggleComplete(s', false, id) == s'
  {
    forall x | x != id ensures Count(WithoutId(s.completeTasksIds, id), x) == Count(s.completeTasksIds, x) {
      WithoutIdCount(s.completeTasksIds, id, x);
    }
  }

  /** Toggling keeps the store consistent when a checked id is one of the
      tasks, which is the case for every toggle issued by a row. */
  lemma ToggleKeepsConsistent(s: Store, complete: bool, id: string)
    requires Consistent(s)
    requires complete ==> id in Ids(s.tasks)
    ensures Consistent(ToggleComplete(s, complete, id))
  {
  }

  /** Deleting removes the task and all occurrences of its id from the
      completed list, keeps everything else in order, and keeps the store
      consistent. */
  lemma DeleteRemoves(s: Store, id: string)
    ensures var s' := Delete(s, id);
      && id !in Ids(s'.tasks)
      && id !in s'.completeTasksIds
      && |s'.tasks| == |s.tasks| - Count(Ids(s.tasks), id)
      && |s'.completeTasksIds| == |s.completeTasksIds| - Count(s.completeTasksIds, id)
      && (forall t :: t in s.tasks && t.id != id ==> t in s'.tasks)
      && (forall x :: x != id ==> Count(s'.completeTasksIds, x) == Count(s.completeTasksIds, x))
      && (Consistent(s) ==> Consistent(s'))
  {
    var s' := Delete(s, id);
    IdsWithoutTask(s.tasks, id);
    forall x ensures Count(Ids(s'.tasks), x) == if x == id then 0 else Count(Ids(s.tasks), x) {
      WithoutIdCount(Ids(s.tasks), id, x);
    }
    forall x ensures Count(s'.completeTasksIds, x) == if x == id then 0 else Count(s.completeTasksIds, x) {
      WithoutIdCount(s.completeTasksIds, id, x);
    }
  }

  /** In a consistent store, deleting an id that names no task changes
      nothing. */
  lemma DeleteUnknownIsNoOp(s: Store, id: string)
    requires CompletedAreTasks(s)
    requires id !in Ids(s.tasks)
    ensures Delete(s, id) == s
  {
    WithoutUnknownTask(s.tasks, id);
  }

  /** Deleting a task whose id is completed exactly once, in a store with
      unique ids, lowers both counts by exactly one. */
  lemma DeleteCompletedTask(s: Store, id: string)
    requires UniqueIds(s.tasks)
    requires id in Ids(s.tasks)
    requires Count(s.completeTasksIds, id) == 1
    ensures |Delete(s, id).tasks| == |s.tasks| - 1
    ensures |Delete(s, id).completeTasksIds| == |s.completeTasksIds| - 1
  {
    DeleteRemoves(s, id);
    CountZero(Ids(s.tasks), id);
    assert Count(Ids(s.tasks), id) <= 1;
  }

  // ---------------------------------------------------------------------
  // Creation form

  /** `z.string().min(1)`: the description is accepted iff it has at least
      one character; there is no trimming. */
  function DescriptionError(description: string): Option<string> {
    if |description| >= 1 then None else Some(RequiredMessage)
  }

  /** Only the empty text fails validation; text made of blanks, tabs or
      line breaks passes, since nothing is trimmed. */
  lemma {:induction false} OnlyEmptyIsRejected(description: string)
    ensures DescriptionError(description) == None <==> description != ""
    ensures DescriptionError("") == Some(RequiredMessage)
    ensures DescriptionError("   ") == None && DescriptionError("\t\n") == None
  {
  }

  // ---------------------------------------------------------------------
  // Derived display values

  /** The "created" counter: `{tasks.length}`. */
  function CreatedCounter(s: Store): (r: string)
    ensures Decimal.AllDigits(r) && Decimal.Read(r) == |s.tasks|
    ensures |r| >= 1 && (r[0] == '0' <==> |s.tasks| == 0)
  {
    Decimal.ReadShow(|s.tasks|);
    Decimal.Show(|s.tasks|)
  }

  /** The "completed" label: `"{k} de {n}"` when there are tasks, otherwise
      the falsy `tasks.length`, which renders as `0`. */
  function CompletedLabel(s: Store): string {
    if |s.tasks| > 0 then
      Decimal.Show(|s.completeTasksIds|) + " de " + Decimal.Show(|s.tasks|)
    else
      Decimal.Show(|s.tasks|)
  }

  /** `!tasks.length`: the empty-state block replaces the list. */
  predicate ShowsEmptyState(s: Store) {
    |s.tasks| == 0
  }

  /** Reads a label of the form `"{k} de {n}"` back into `(k, n)`. */
  function ReadCompletedLabel(text: string): Option<(nat, nat)> {
    var k := Decimal.LeadingDigits(text);
    if 0 < k && k + 4 < |text| && text[k..k + 4] == " de "
       && Decimal.AllDigits(text[k + 4..])
    then Some((Decimal.Read(text[..k]), Decimal.Read(text[k + 4..])))
    else None
  }

  /** With tasks present, the completed label reads back as the number of
      completed ids and the number of tasks; with none it is `"0"`, which
      is not such a label. */
  lemma CompletedLabelReadsBack(s: Store)
    ensures |s.tasks| > 0 ==>
      ReadCompletedLabel(CompletedLabel(s)) == Some((|s.completeTasksIds|, |s.tasks|))
    ensures |s.tasks| == 0 ==>
      CompletedLabel(s) == "0" && ReadCompletedLabel(CompletedLabel(s)) == None
  {
    var shown := CompletedLabel(s);
    if |s.tasks| > 0 {
      var k, n := Decimal.Show(|s.completeTasksIds|), Decimal.Show(|s.tasks|);
      assert shown == k + (" de " + n);
      Decimal.LeadingDigitsOfAppend(k, " de " + n);
      assert shown[..|k|] == k;
      assert shown[|k|..|k| + 4] == " de ";
      assert shown[|k| + 4..] == n;
      Decimal.ReadShow(|s.completeTasksIds|);
      Decimal.ReadShow(|s.tasks|);
    } else {
      assert Decimal.LeadingDigits(shown) == 1;
    }
  }

  /** The empty state is shown exactly when the created counter reads `0`,
      and exactly when the completed label reads `0`. */
  lemma EmptyStateIffZeroLabels(s: Store)
    ensures ShowsEmptyState(s) <==> CreatedCounter(s) == "0"
    ensures ShowsEmptyState(s) <==> CompletedLabel(s) == "0"
  {
  }

  /** Three tasks with one of them completed show `"1 de 3"`. */
  lemma LabelExample(s: Store)
    requires |s.tasks| == 3 && |s.completeTasksIds| == 1
    ensures CompletedLabel(s) == "1 de 3"
  {
  }

  /** Two tasks created, the first checked, then both deleted: the labels
      follow the lists at every step and the empty state comes back. */
  lemma CreateCheckDeleteWalkthrough(a: string, b: string)
    requires a != b
    ensures var s1 := Create(Create(Store([], []), a, "Buy milk"), b, "Walk dog");
      var s2 := ToggleComplete(s1, true, a);
      var s3 := Delete(s2, b);
      var s4 := Delete(s3, a);
      && CreatedCounter(s1) == "2" && CompletedLabel(s1) == "0 de 2"
      && CompletedLabel(s2) == "1 de 2"
      && s3.tasks == [Task(a, "Buy milk")] && CompletedLabel(s3) == "1 de 1"
      && s4 == Store([], []) && ShowsEmptyState(s4) && CompletedLabel(s4) == "0"
  {
    var s1 := Create(Create(Store([], []), a, "Buy milk"), b, "Walk dog");
    assert s1.tasks == [Task(a, "Buy milk"), Task(b, "Walk dog")];
    var s2 := ToggleComplete(s1, true, a);
    assert s2.completeTasksIds == [a];
    var s3 := Delete(s2, b);
    assert s2.tasks[1..] == [Task(b, "Walk dog")];
    assert WithoutTask(s2.tasks[1..], b) == [];
    assert s3.tasks == [Task(a, "Buy milk")];
    assert s3.completeTasksIds == [a];
    var s4 := Delete(s3, a);
    var last := [Task(a, "Buy milk")];
    assert last[1..] == [];
    assert WithoutTask(last, a) == WithoutTask(last[1..], a);
    assert s4.tasks == [];
  }

  // ---------------------------------------------------------------------
  // The component

  /** The application root: its two state cells and the form's
      description field with its error. */
  class App {
    var tasks: seq<Task>
    var completeTasksIds: seq<string>
    var description: string
    var descriptionError: Option<string>

    function State(): Store
      reads this
    {
      Store(tasks, completeTasksIds)
    }

    predicate Valid()
      reads this
    {
      Consistent(State())
    }

    /** Mounting: both lists empty, the form at its default value. */
    constructor ()
      ensures State() == Store([], []) && Valid()
      ensures description == DefaultDescription && descriptionError == None
    {
      tasks, completeTasksIds := [], [];
      description, descriptionError := DefaultDescription, None;
    }

    /** `createTask(values)`; `newId` stands for `crypto.randomUUID()`,
        which never returns an id already in use. */
    method CreateTask(values: string, newId: string)
      requires newId !in Ids(tasks)
      modifies this
      ensures State() == Create(old(State()), newId, values)
      ensures description == DefaultDescription && descriptionError == None
      ensures old(Valid()) ==> Valid()
    {
      CreateFacts(State(), newId, values);
      tasks := tasks + [Task(newId, values)];
      description, descriptionError := DefaultDescription, None;
    }

    /** `handleTaskStateChange(complete, id)`. */
    method HandleTaskStateChange(complete: bool, id: string)
      modifies this
      ensures State() == ToggleComplete(old(State()), complete, id)
      ensures description == old(description) && descriptionError == old(descriptionError)
      ensures old(Valid()) && (complete ==> id in Ids(tasks)) ==> Valid()
    {
      if complete {
        completeTasksIds := completeTasksIds + [id];
      } else {
        completeTasksIds := WithoutId(completeTasksIds, id);
      }
    }

    /** `handleDeleteTask(id)`. */
    method HandleDeleteTask(id: string)
      modifies this
      ensures State() == Delete(old(State()), id)
      ensures description == old(description) && descriptionError == old(descriptionError)
      ensures old(Valid()) ==> Valid()
    {
      DeleteRemoves(State(), id);
      tasks := WithoutTask(tasks, id);
      completeTasksIds := WithoutId(completeTasksIds, id);
    }

    /** Typing into the input registered as `description`. */
    method SetDescription(text: string)
      modifies this
      ensures description == text
      ensures State() == old(State()) && descriptionError == old(descriptionError)
    {
      description := text;
    }

    /** `handleSubmit(createTask)`: validate the field; when it passes,
        create the task and reset the form; when it fails, record the error
        and leave the lists and the typed text as they are. */
    method HandleSubmit(newId: string)
      requires newId !in Ids(tasks)
      modifies this
      ensures DescriptionError(old(description)) == None ==>
        && State() == Create(old(State()), newId, old(description))
        && description == DefaultDescription && descriptionError == None
      ensures DescriptionError(old(description)) != None ==>
        && State() == old(State())
        && description == old(description)
        && descriptionError == DescriptionError(old(description))
      ensures old(Valid()) ==> Valid()
    {
      var error := DescriptionError(description);
      if error == None {
        CreateTask(description, newId);
      } else {
        descriptionError := error;
      }
    }
  }
}
