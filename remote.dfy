/**
 * The answers of the hosted database as the components receive them. The
 * database itself is not part of this model: every answer is a parameter.
 */
module Remote {
  import opened Text

  /** A row of the `progress` table, as far as the components read it. */
  datatype ProgressRow = ProgressRow(moduleId: string, status: string)

  /** One entry of a component's `moduleProgress` list. */
  datatype ModuleProgress = ModuleProgress(moduleId: string, status: string)

  /**
   * The outcome of a query: the error it returned (which the components
   * throw and catch), or its data, which may be null.
   */
  datatype Fetch<T> = Failed | Fetched(data: Option<T>)

  /** The events the authentication client reports to its listeners. */
  datatype AuthEvent = SignedIn | SignedOut | TokenRefreshed | OtherEvent(name: string)
}
