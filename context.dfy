/** Attaching an executor to a context and finding it again (context.go). */
module Context {
  import opened Types

  /** An executor: a *sql.DB, *sql.Conn or *sql.Tx, known by identity. What
      it does when asked to run a statement is the `query` oracle of the
      Query module. */
  datatype Executor = Executor(id: nat)

  /** Context keys: the package's unexported executorKey, and keys of other
      packages, which can never equal it. */
  datatype Key = ExecutorKey | OtherKey(id: nat)

  /** A value stored in a context: the nil interface, a non-nil interface
      holding an Executor (a typed nil pointer such as (*sql.DB)(nil)
      included), or anything else. */
  datatype Any = Nil | HoldsExecutor(executor: Executor) | OtherValue(id: nat)

  /** An immutable chain of contexts, as context.WithValue builds it. */
  datatype Ctx = Background | WithValue(parent: Ctx, key: Key, val: Any)

  /** ctx.Value(key): the innermost binding of `key`, nil when there is none. */
  function Lookup(ctx: Ctx, key: Key): Any {
    match ctx
    case Background => Nil
    case WithValue(parent, k, v) => if k == key then v else Lookup(parent, key)
  }

  /** Whether some context of the chain binds `key`. */
  predicate Binds(ctx: Ctx, key: Key) {
    match ctx
    case Background => false
    case WithValue(parent, k, _) => k == key || Binds(parent, key)
  }

  /** NewContext: a derived context carrying `executor`; a nil executor is
      stored as a nil interface value. */
  function NewContext(parent: Ctx, executor: Option<Executor>): (ctx: Ctx)
    ensures ctx.WithValue? && ctx.parent == parent && ctx.key == ExecutorKey
  {
    WithValue(parent, ExecutorKey, if executor.Some? then HoldsExecutor(executor.value) else Nil)
  }

  /** fromContext: the stored executor, or errNoExecutor when the type
      assertion fails (nil interface, other value or no binding); on error
      no executor is returned. */
  function FromContext(ctx: Ctx): (r: Result<Executor, Error>)
    ensures r.Err? ==> r.error == NoExecutor
    ensures r.Ok? <==> Lookup(ctx, ExecutorKey).HoldsExecutor?
  {
    match Lookup(ctx, ExecutorKey)
    case HoldsExecutor(e) => Ok(e)
    case _ => Err(NoExecutor)
  }

  /** What NewContext attaches, fromContext finds. */
  lemma AttachThenResolve(parent: Ctx, e: Executor)
    ensures FromContext(NewContext(parent, Some(e))) == Ok(e)
  {
  }

  /** Attaching a nil executor fails the lookup, even over a parent that
      carries an executor. */
  lemma AttachNilFails(parent: Ctx)
    ensures FromContext(NewContext(parent, None)) == Err(NoExecutor)
  {
  }

  /** A chain that never binds the executor key has no executor. */
  lemma {:induction false} NoBindingNoExecutor(ctx: Ctx)
    requires !Binds(ctx, ExecutorKey)
    ensures FromContext(ctx) == Err(NoExecutor)
  {
    NoBindingLooksUpNil(ctx);
  }

  lemma {:induction false} NoBindingLooksUpNil(ctx: Ctx)
    requires !Binds(ctx, ExecutorKey)
    ensures Lookup(ctx, ExecutorKey) == Nil
  {
    match ctx
    case Background =>
    case WithValue(parent, _, _) => NoBindingLooksUpNil(parent);
  }

  /** Contexts derived with other keys do not hide the executor. */
  lemma OtherKeysTransparent(ctx: Ctx, id: nat, v: Any)
    ensures FromContext(WithValue(ctx, OtherKey(id), v)) == FromContext(ctx)
  {
  }

  /** With nested attachments the innermost executor wins. */
  lemma InnermostWins(ctx: Ctx, outer: Executor, inner: Executor)
    ensures FromContext(NewContext(NewContext(ctx, Some(outer)), Some(inner))) == Ok(inner)
  {
  }
}
