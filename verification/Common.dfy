/** Shapes shared by every page: an optional value and the member reference
    used by project teams, event attendees and document authors. */
module Common {

  /** An optional field (`field?: T` in the source). */
  datatype Option<+T> = None | Some(value: T)

  /** A member reference: identifier, display name, optional avatar URL. */
  datatype Member = Member(id: string, name: string, avatar: Option<string>)
}
