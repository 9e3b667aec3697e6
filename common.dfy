/** Values shared by the components of the time report. */
module Common {

  datatype Option<+T> = None | Some(value: T)

  /** Why a run stops. Each case is an exception the program lets escape:
      a non-success status from `EnsureSuccessStatusCode`, or the `(int)`
      cast of an absent time value under an integer issue number. */
  datatype Failure =
    | ProjectsPageFailed(page: nat)
    | IssuesRequestFailed(projectId: int)
    | MissingTimeSpent(iid: int)

  datatype Result<+T> = Ok(value: T) | Err(failure: Failure)

  /** A project as decoded from one element of the project listing. */
  datatype Project = Project(id: int, name: string)
}
