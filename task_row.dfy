/** One row of the task list: the `Task` component. It keeps its own
    `complete` flag, which starts unchecked on every mount, and forwards
    checkbox changes and delete clicks to the handlers of the application
    root, which are modelled by the `App` object the row is bound to. */
module TaskRow {
  import TodoApp

  class Task {
    const id: string
    const description: string
    /** The owner of `onStateChange` and `onDelete`: the row's callbacks
        are `App.HandleTaskStateChange` and `App.HandleDeleteTask`. */
    const app: TodoApp.App
    var complete: bool

    /** The description is struck through exactly when the row is checked. */
    predicate LineThrough()
      reads this
    {
      complete
    }

    /** Mounting: whatever the store holds, the row starts unchecked. */
    constructor (id: string, description: string, app: TodoApp.App)
      ensures this.id == id && this.description == description && this.app == app
      ensures !complete && !LineThrough()
    {
      this.id, this.description, this.app := id, description, app;
      complete := false;
    }

    /** `handleChange(checked)`: set the flag, then call the store's toggle
        once with the row's own id. */
    method HandleChange(checked: bool)
      modifies this, app
      ensures complete == checked && LineThrough() == checked
      ensures app.State() == TodoApp.ToggleComplete(old(app.State()), checked, id)
      ensures app.description == old(app.description)
      ensures app.descriptionError == old(app.descriptionError)
      ensures old(Mirrors(complete, app.State(), id)) && checked == !old(complete) ==>
        Mirrors(complete, app.State(), id)
    {
      ghost var before := app.State();
      ghost var wasComplete := complete;
      complete := checked;
      app.HandleTaskStateChange(checked, id);
      if Mirrors(wasComplete, before, id) && checked == !wasComplete {
        ChangeKeepsMirror(wasComplete, before, id);
      }
    }

    /** `handleDelete(id)`: forward the given id to the store's delete. */
    method HandleDelete(target: string)
      modifies app
      ensures app.State() == TodoApp.Delete(old(app.State()), target)
      ensures app.description == old(app.description)
      ensures app.descriptionError == old(app.descriptionError)
      ensures complete == old(complete)
    {
      app.HandleDeleteTask(target);
    }

    /** The trash button: `onClick={() => handleDelete(id)}`. */
    method ClickDelete()
      modifies app
      ensures app.State() == TodoApp.Delete(old(app.State()), id)
      ensures id !in TodoApp.Ids(app.State().tasks)
      ensures app.description == old(app.description)
      ensures app.descriptionError == old(app.descriptionError)
      ensures complete == old(complete)
    {
      TodoApp.DeleteRemoves(app.State(), id);
      HandleDelete(id);
    }
  }

  /** The row's flag agrees with the store: its id occurs once in the
      completed list when checked, and not at all when unchecked. */
  predicate Mirrors(complete: bool, s: TodoApp.Store, id: string) {
    TodoApp.Count(s.completeTasksIds, id) == if complete then 1 else 0
  }

  /** A row mounted for a task just created agrees with the store: the
      fresh id cannot be among the completed ids of a consistent store. */
  lemma MountedRowMirrors(s: TodoApp.Store, id: string, description: string)
    requires TodoApp.CompletedAreTasks(s)
    requires id !in TodoApp.Ids(s.tasks)
    ensures Mirrors(false, TodoApp.Create(s, id, description), id)
  {
    TodoApp.CountZero(s.completeTasksIds, id);
  }

  /** The uncontrolled checkbox alternates, so each change reports the
      opposite of the current flag; such a change keeps the agreement. */
  lemma ChangeKeepsMirror(complete: bool, s: TodoApp.Store, id: string)
    requires Mirrors(complete, s, id)
    ensures Mirrors(!complete, TodoApp.ToggleComplete(s, !complete, id), id)
  {
    if complete {
      TodoApp.WithoutIdCount(s.completeTasksIds, id, id);
    } else {
      TodoApp.ToggleOnAppends(s, id);
    }
  }

  /** Reporting `true` twice for the same row, without an unchecking in
      between, leaves its id twice in the completed list. */
  lemma RepeatedCheckBreaksMirror(s: TodoApp.Store, id: string)
    requires Mirrors(true, s, id)
    ensures !Mirrors(true, TodoApp.ToggleComplete(s, true, id), id)
    ensures TodoApp.Count(TodoApp.ToggleComplete(s, true, id).completeTasksIds, id) == 2
  {
    TodoApp.ToggleOnAppends(s, id);
  }

  /** What the other rows and the form do leaves this row's agreement
      with the store intact. */
  lemma OtherIntentsKeepMirror(complete: bool, s: TodoApp.Store, id: string,
                               other: string, checked: bool, description: string)
    requires other != id
    requires Mirrors(complete, s, id)
    ensures Mirrors(complete, TodoApp.ToggleComplete(s, checked, other), id)
    ensures Mirrors(complete, TodoApp.Delete(s, other), id)
    ensures Mirrors(complete, TodoApp.Create(s, other, description), id)
  {
    if checked {
      TodoApp.ToggleOnAppends(s, other);
    } else {
      TodoApp.WithoutIdCount(s.completeTasksIds, other, id);
    }
    TodoApp.WithoutIdCount(s.completeTasksIds, other, id);
  }
}
