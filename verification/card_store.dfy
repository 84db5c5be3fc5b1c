/** `saveCard` of `composables/useCard.js`: the record written for the signed-in
    user and whether it updates the existing card or creates a new one.  The
    lookup of the existing card and the write itself are backend calls; their
    results are parameters. */
module CardStore {
  import opened Wrappers
  import opened JsValues

  /** A plain object of form fields, keyed by property name. */
  type Fields = map<string, JsValue>

  const UserIdKey: string := "user_id"
  const IsActiveKey: string := "is_active"
  const NotAuthenticatedMessage: string := "User not authenticated"

  /** `{ user_id: userId, ...cardData, is_active: true }`: later entries of
      the object literal override earlier ones. */
  function SaveData(userId: string, cardData: Fields): (r: Fields)
    ensures r.Keys == cardData.Keys + {UserIdKey, IsActiveKey}
    ensures r[IsActiveKey] == Bool(true)
    ensures UserIdKey !in cardData ==> r[UserIdKey] == Str(userId)
    ensures forall k :: k in cardData && k != IsActiveKey ==> r[k] == cardData[k]
  {
    (map[UserIdKey := Str(userId)] + cardData)[IsActiveKey := Bool(true)]
  }

  /** The backend write `saveCard` issues. */
  datatype SaveRequest = Update(id: JsString, data: Fields) | Create(data: Fields)

  /** What `saveCard` leaves behind: the request it sent (if any), whether a
      saved record is returned, the `error` message and the final `isLoading`. */
  datatype SaveOutcome = SaveOutcome(request: Option<SaveRequest>, saved: bool, error: Option<string>, isLoading: bool)

  /** `saveCard`.  `userId` is the signed-in user's id (`None` when signed
      out), `existing` the card `getUserCard` found, and `writeError` the
      message of the error the write threw, if it did. */
  function SaveCard(userId: Option<string>, existing: Option<JsString>, cardData: Fields,
                    writeError: Option<string>): (r: SaveOutcome)
    ensures !r.isLoading
    ensures userId.None? ==> r == SaveOutcome(None, false, Some(NotAuthenticatedMessage), false)
    ensures userId.Some? ==> r.request.Some? && r.request.value.data == SaveData(userId.value, cardData)
    ensures userId.Some? ==> (r.request.value.Update? <==> existing.Some?)
    ensures userId.Some? && existing.Some? ==> r.request.value.id == existing.value
    ensures r.saved <==> userId.Some? && writeError.None?
    ensures r.error.Some? <==> !r.saved
  {
    match userId
    case None => SaveOutcome(None, false, Some(NotAuthenticatedMessage), false)
    case Some(id) =>
      var data := SaveData(id, cardData);
      var request := if existing.Some? then Update(existing.value, data) else Create(data);
      SaveOutcome(Some(request), writeError.None?, writeError, false)
  }
}
