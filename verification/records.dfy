/** The `cards` record of the backend record store, as the composables see it.
    Text fields are `JsString`s because a record or form object may leave any
    of them unset. */
module Records {
  import opened Wrappers
  import opened JsValues

  /** The user reference stored under `expand.user_id`. */
  datatype UserRef = UserRef(id: JsString, username: JsString)

  /** The `expand` object of a record; only its `user_id` entry is used. */
  datatype Expand = Expand(userId: Option<UserRef>)

  /** One business card. */
  datatype Card = Card(
    id: JsString,
    userId: JsString,
    username: JsString,
    firstName: JsString,
    lastName: JsString,
    company: JsString,
    title: JsString,
    email: JsString,
    mobile: JsString,
    office: JsString,
    website: JsString,
    note: JsString,
    profileImage: JsString,
    isActive: bool,
    themePrimaryLight: JsString,
    themePrimaryDark: JsString,
    expand: Option<Expand>)
}
