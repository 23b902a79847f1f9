/** The clip record shared by the sync engine and the dashboard. */
module Types {
  import opened Wrappers
  import opened JsString

  /** Document id, assigned by the store when the clip is created. */
  type ClipId = string

  /** Milliseconds since the epoch. */
  type Timestamp = int

  /** The fields of a stored clip document. `createdAt` is None while the
      server timestamp is pending (or when the field is missing). */
  datatype ClipData = ClipData(content: JsText, hash: string, deviceLabel: string, createdAt: Option<Timestamp>)

  /** A clip as the application sees it: the document's fields plus its id. */
  datatype Clip = Clip(id: ClipId, content: JsText, hash: string, deviceLabel: string, createdAt: Option<Timestamp>)

  /** JavaScript truthiness of a `string | null` user id: both null and the
      empty string count as signed out. */
  predicate SignedIn(uid: Option<string>) {
    uid.Some? && uid.value != []
  }

  /** The ids of a list of clips. */
  function ClipIds(clips: seq<Clip>): (r: set<ClipId>)
    ensures forall c :: c in clips ==> c.id in r
    ensures forall id :: id in r ==> exists c :: c in clips && c.id == id
  {
    set c | c in clips :: c.id
  }
}
