/** The records the issue list works on: GitHub issues as the task store hands them
    out, reduced to what the view filter reads. */
module Issues {

  /** A value that may be absent (`undefined` or `null` on the JavaScript side). */
  datatype Option<T> = None | Some(value: T)

  /** A GitHub label: either a bare string, or an object whose `name` may be missing. */
  datatype Label =
    | StrLabel(text: string)
    | ObjLabel(name: Option<string>)

  /** One element of the cached task list. `Absent` stands for a `null` or `undefined`
      entry (the filter guards against it with `issue?.`); a present issue carries an
      identifying number and a `labels` field that may itself be missing. */
  datatype Issue =
    | Absent
    | GitHubIssue(number: nat, labels: Option<seq<Label>>)
}
