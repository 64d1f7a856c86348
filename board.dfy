/**
 * The board's state and its transitions. Each transition is the updater the
 * component hands to `setTasks`: a function from the previous board to the next.
 */
module Kanban {
  import opened Wrappers
  import opened JsString
  import opened TaskLists

  /** `keyof TasksByStatus`: the three columns. */
  datatype Status = Todo | InProgress | Done

  /** `TasksByStatus`: one ordered list of tasks per column. */
  datatype Board = Board(todo: seq<Task>, inProgress: seq<Task>, done: seq<Task>) {

    /** `prev[status]`. */
    function Get(s: Status): seq<Task> {
      match s
      case Todo => todo
      case InProgress => inProgress
      case Done => done
    }

    /** `{ ...prev, [status]: l }`: replaces one column and keeps the other two. */
    function With(s: Status, l: seq<Task>): (r: Board)
      ensures r.Get(s) == l
      ensures forall s' :: s' != s ==> r.Get(s') == Get(s')
    {
      match s
      case Todo => this.(todo := l)
      case InProgress => this.(inProgress := l)
      case Done => this.(done := l)
    }

    /** Every task on the board, column after column. */
    function All(): seq<Task> {
      todo + inProgress + done
    }

    /** How many tasks the board holds. */
    function Size(): nat {
      |todo| + |inProgress| + |done|
    }
  }

  /** `DragData`: the payload written at drag start and read back at drop. */
  datatype DragData = DragData(taskId: string, sourceStatus: Status)

  /** The state the component starts in and that clearing restores. */
  const Empty := Board([], [], [])

  /** The board invariant: no identifier occurs twice anywhere on the board. */
  predicate UniqueIds(b: Board) {
    DistinctIds(b.All())
  }

  /**
   * `addTask`: input that trims to the empty string is ignored; otherwise a task
   * with the fresh identifier and the untrimmed input is appended to `todo`.
   */
  function Add(b: Board, input: string, freshId: string): (r: Board)
    ensures AllWhiteSpace(input) ==> r == b
    ensures !AllWhiteSpace(input) ==>
      && r.todo == b.todo + [Task(freshId, input)]
      && r.inProgress == b.inProgress
      && r.done == b.done
  {
    TrimEmptyIff(input);
    if Trim(input) == [] then b else b.With(Todo, b.todo + [Task(freshId, input)])
  }

  /** `removeTask`: filters every task carrying `id` out of column `s`. */
  function Remove(b: Board, id: string, s: Status): (r: Board)
    ensures r.Get(s) == WithoutId(b.Get(s), id)
    ensures forall t :: t in r.Get(s) <==> t in b.Get(s) && t.id != id
    ensures forall s' :: s' != s ==> r.Get(s') == b.Get(s')
    ensures id !in Ids(b.Get(s)) ==> r == b
  {
    var r := b.With(s, WithoutId(b.Get(s), id));
    assert id !in Ids(b.Get(s)) ==> r == b by {
      if id !in Ids(b.Get(s)) {
        WithoutAbsentId(b.Get(s), id);
      }
    }
    r
  }

  /**
   * The updater inside `handleDrop`: nothing happens when source and target
   * coincide or no task of the source column carries `id`; otherwise every task
   * carrying `id` leaves the source and the first of them is appended to the target.
   */
  function Move(b: Board, id: string, from: Status, to: Status): (r: Board)
    ensures from == to ==> r == b
    ensures id !in Ids(b.Get(from)) ==> r == b
    ensures from != to && id in Ids(b.Get(from)) ==>
      && r.Get(from) == WithoutId(b.Get(from), id)
      && |r.Get(to)| == |b.Get(to)| + 1
      && r.Get(to)[..|b.Get(to)|] == b.Get(to)
      && r.Get(to)[|b.Get(to)|] in b.Get(from)
      && r.Get(to)[|b.Get(to)|].id == id
    ensures forall s :: s != from && s != to ==> r.Get(s) == b.Get(s)
  {
    if from == to then b
    else
      match Find(b.Get(from), id)
      case None => b
      case Some(t) =>
        var r := b.With(from, WithoutId(b.Get(from), id)).With(to, b.Get(to) + [t]);
        assert r.Get(to)[..|b.Get(to)|] == b.Get(to);
        r
  }

  /**
   * `handleDrop` on column `to`: a payload that failed to parse (`None`) leaves
   * the board as it was; otherwise the task moves from the column the payload names.
   */
  function Drop(b: Board, payload: Option<DragData>, to: Status): (r: Board)
    ensures payload.None? ==> r == b
    ensures payload.Some? && payload.value.sourceStatus == to ==> r == b
    ensures payload.Some? ==> r == Move(b, payload.value.taskId, payload.value.sourceStatus, to)
  {
    match payload
    case None => b
    case Some(DragData(id, from)) => if from == to then b else Move(b, id, from, to)
  }

  /** `clearAllTasks`: when the user confirms, every column becomes empty. */
  function Clear(b: Board, confirmed: bool): (r: Board)
    ensures confirmed ==> r.Size() == 0 && forall s :: r.Get(s) == []
    ensures !confirmed ==> r == b
  {
    if confirmed then Empty else b
  }

  // ---------------------------------------------------------------------------
  // The board invariant

  /** The invariant stated column by column: no identifier twice within a column, none shared by two columns. */
  predicate ColumnsUnique(b: Board) {
    && DistinctIds(b.todo) && DistinctIds(b.inProgress) && DistinctIds(b.done)
    && Ids(b.todo) !! Ids(b.inProgress)
    && Ids(b.todo) !! Ids(b.done)
    && Ids(b.inProgress) !! Ids(b.done)
  }

  /** No identifier twice on the board is the same as: none twice in a column and none shared by two columns. */
  lemma UniqueIdsIff(b: Board)
    ensures UniqueIds(b) <==> ColumnsUnique(b)
  {
    DistinctConcat(b.todo, b.inProgress);
    DistinctConcat(b.todo + b.inProgress, b.done);
    assert Ids(b.todo + b.inProgress) == Ids(b.todo) + Ids(b.inProgress);
  }

  /** The column-by-column invariant, read through `Get`. */
  lemma ColumnsUniqueGet(b: Board)
    ensures ColumnsUnique(b) <==>
      && (forall s :: DistinctIds(b.Get(s)))
      && (forall s, s' :: s != s' ==> Ids(b.Get(s)) !! Ids(b.Get(s')))
  {
    if ColumnsUnique(b) {
      forall s, s' | s != s' ensures Ids(b.Get(s)) !! Ids(b.Get(s')) {
        match s
        case Todo =>
        case InProgress =>
        case Done =>
      }
    } else {
      assert !DistinctIds(b.Get(Todo)) || !DistinctIds(b.Get(InProgress)) || !DistinctIds(b.Get(Done))
        || !(Ids(b.Get(Todo)) !! Ids(b.Get(InProgress)))
        || !(Ids(b.Get(Todo)) !! Ids(b.Get(Done)))
        || !(Ids(b.Get(InProgress)) !! Ids(b.Get(Done)));
    }
  }

  /** Under the invariant a task identifier sits in at most one column. */
  lemma UniqueIdsOneColumn(b: Board, id: string, s: Status, s': Status)
    requires UniqueIds(b)
    requires id in Ids(b.Get(s)) && id in Ids(b.Get(s'))
    ensures s == s'
  {
    UniqueIdsIff(b);
    ColumnsUniqueGet(b);
  }

  /** Adding a task whose identifier is not yet on the board keeps the invariant. */
  lemma AddKeepsUniqueIds(b: Board, input: string, freshId: string)
    requires UniqueIds(b)
    requires freshId !in Ids(b.All())
    ensures UniqueIds(Add(b, input, freshId))
  {
    var r := Add(b, input, freshId);
    if !AllWhiteSpace(input) {
      var t := Task(freshId, input);
      UniqueIdsIff(b);
      assert b.All() == b.todo + b.inProgress + b.done;
      assert Ids(b.All()) == Ids(b.todo) + Ids(b.inProgress) + Ids(b.done);
      assert Ids([t]) == {freshId};
      DistinctConcat(b.todo, [t]);
      assert Ids(r.todo) == Ids(b.todo) + {freshId};
      UniqueIdsIff(r);
    }
  }

  /** Removing keeps the invariant. */
  lemma RemoveKeepsUniqueIds(b: Board, id: string, s: Status)
    requires UniqueIds(b)
    ensures UniqueIds(Remove(b, id, s))
  {
    var r := Remove(b, id, s);
    UniqueIdsIff(b);
    ColumnsUniqueGet(b);
    WithoutIdDistinct(b.Get(s), id);
    WithoutIdIds(b.Get(s), id);
    ColumnsUniqueGet(r);
    UniqueIdsIff(r);
  }

  /** Which identifiers each column holds after a move that found its task. */
  lemma MoveColumnIds(b: Board, id: string, from: Status, to: Status)
    requires from != to && id in Ids(b.Get(from))
    ensures Ids(Move(b, id, from, to).Get(from)) == Ids(b.Get(from)) - {id}
    ensures Ids(Move(b, id, from, to).Get(to)) == Ids(b.Get(to)) + {id}
  {
    var r := Move(b, id, from, to);
    WithoutIdIds(b.Get(from), id);
    var t := r.Get(to)[|b.Get(to)|];
    assert r.Get(to) == b.Get(to) + [t];
  }

  /** Moving keeps the invariant. */
  lemma MoveKeepsUniqueIds(b: Board, id: string, from: Status, to: Status)
    requires UniqueIds(b)
    ensures UniqueIds(Move(b, id, from, to))
  {
    var r := Move(b, id, from, to);
    if from != to && id in Ids(b.Get(from)) {
      UniqueIdsIff(b);
      ColumnsUniqueGet(b);
      var src, dst := b.Get(from), b.Get(to);
      MoveColumnIds(b, id, from, to);
      WithoutIdDistinct(src, id);
      var t := r.Get(to)[|dst|];
      assert r.Get(to) == dst + [t];
      assert Ids([t]) == {id};
      DistinctConcat(dst, [t]);
      forall s, s' | s != s' ensures Ids(r.Get(s)) !! Ids(r.Get(s')) {
        assert Ids(b.Get(s)) !! Ids(b.Get(s'));
        assert Ids(b.Get(from)) !! Ids(b.Get(s)) || s == from;
        assert Ids(b.Get(from)) !! Ids(b.Get(s')) || s' == from;
      }
      ColumnsUniqueGet(r);
      UniqueIdsIff(r);
    }
  }

  /** Dropping keeps the invariant. */
  lemma DropKeepsUniqueIds(b: Board, payload: Option<DragData>, to: Status)
    requires UniqueIds(b)
    ensures UniqueIds(Drop(b, payload, to))
  {
    if payload.Some? {
      MoveKeepsUniqueIds(b, payload.value.taskId, payload.value.sourceStatus, to);
    }
  }

  // ---------------------------------------------------------------------------
  // Further properties of the transitions

  /** The task appended by a move is the FIRST task of the source column that carries `id`. */
  lemma MoveAppendsFirstMatch(b: Board, id: string, from: Status, to: Status, i: nat)
    requires from != to
    requires i < |b.Get(from)| && b.Get(from)[i].id == id
    requires forall j :: 0 <= j < i ==> b.Get(from)[j].id != id
    ensures Move(b, id, from, to).Get(to) == b.Get(to) + [b.Get(from)[i]]
  {
    FindFirst(b.Get(from), id, i);
  }

  /**
   * A move removes every task carrying `id` from the source but appends only one:
   * the board shrinks by the number of duplicates the identifier had.
   */
  lemma MoveSize(b: Board, id: string, from: Status, to: Status)
    requires from != to && id in Ids(b.Get(from))
    ensures Move(b, id, from, to).Size() + CountId(b.Get(from), id) == b.Size() + 1
  {
    var r := Move(b, id, from, to);
    assert forall s :: s != from && s != to ==> r.Get(s) == b.Get(s);
    assert r.Size() == |r.Get(Todo)| + |r.Get(InProgress)| + |r.Get(Done)|;
    assert b.Size() == |b.Get(Todo)| + |b.Get(InProgress)| + |b.Get(Done)|;
  }

  /** When identifiers in the source column are distinct, a move preserves the number of tasks. */
  lemma MovePreservesSize(b: Board, id: string, from: Status, to: Status)
    requires DistinctIds(b.Get(from))
    ensures Move(b, id, from, to).Size() == b.Size()
  {
    if from != to && id in Ids(b.Get(from)) {
      MoveSize(b, id, from, to);
      CountIdDistinct(b.Get(from), id);
      CountIdPositive(b.Get(from), id);
    }
  }

  /** Duplicate identifiers in the source column make a move lose tasks. */
  lemma MoveLosesDuplicates(b: Board, id: string, from: Status, to: Status)
    requires from != to && CountId(b.Get(from), id) >= 2
    ensures Move(b, id, from, to).Size() < b.Size()
  {
    CountIdPositive(b.Get(from), id);
    MoveSize(b, id, from, to);
  }

  /** The identifiers on the board are those of its three columns, named in any order. */
  lemma AllIds(c: Board, s1: Status, s2: Status, s3: Status)
    requires s1 != s2 && s1 != s3 && s2 != s3
    ensures Ids(c.All()) == Ids(c.Get(s1)) + Ids(c.Get(s2)) + Ids(c.Get(s3))
  {
    assert c.All() == c.todo + c.inProgress + c.done;
    assert Ids(c.todo + c.inProgress) == Ids(c.todo) + Ids(c.inProgress);
    assert Ids(c.All()) == Ids(c.todo) + Ids(c.inProgress) + Ids(c.done);
    assert {s1, s2, s3} == {Todo, InProgress, Done};
  }

  /** A move never changes which identifiers are on the board. */
  lemma MoveKeepsIds(b: Board, id: string, from: Status, to: Status)
    ensures Ids(Move(b, id, from, to).All()) == Ids(b.All())
  {
    var r := Move(b, id, from, to);
    if from != to && id in Ids(b.Get(from)) {
      var o := if Todo != from && Todo != to then Todo
               else if InProgress != from && InProgress != to then InProgress
               else Done;
      MoveColumnIds(b, id, from, to);
      AllIds(b, from, to, o);
      AllIds(r, from, to, o);
      assert r.Get(o) == b.Get(o);
      assert (Ids(b.Get(from)) - {id}) + (Ids(b.Get(to)) + {id}) == Ids(b.Get(from)) + Ids(b.Get(to));
    }
  }

  /** Removing twice is removing once. */
  lemma RemoveIdempotent(b: Board, id: string, s: Status)
    ensures Remove(Remove(b, id, s), id, s) == Remove(b, id, s)
  {
    WithoutIdIds(b.Get(s), id);
  }

  /** Removing takes away exactly the tasks of column `s` that carry `id`. */
  lemma RemoveSize(b: Board, id: string, s: Status)
    ensures Remove(b, id, s).Size() + CountId(b.Get(s), id) == b.Size()
  {
    var r := Remove(b, id, s);
    assert r.Size() == |r.Get(Todo)| + |r.Get(InProgress)| + |r.Get(Done)|;
    assert b.Size() == |b.Get(Todo)| + |b.Get(InProgress)| + |b.Get(Done)|;
  }
}
