/** `sendPush`: a fire-and-forget notification to the recipient's device. */
module Push {

  /** `title: 'New Txtme!'`. */
  const Title := "New Txtme!"

  /** `sound: 'default'`. */
  const Sound := "default"

  /** The one notification handed to the push provider. */
  datatype Note = Note(to: string, sound: string, title: string, body: string)

  /** What became of one dispatch. A failed delivery is only logged. */
  datatype Dispatch =
    | NoPush                 // the recipient row has no (truthy) push token
    | Dropped(token: string) // the token failed the format check
    | Delivered(note: Note)  // the provider accepted it
    | Failed(note: Note)     // the provider call threw; caught and logged

  /** The body chosen for the message kind: `type==='audio' ? "Voice note" : "Secret message"`. */
  function Body(kind: string): string {
    if kind == "audio" then "Voice note" else "Secret message"
  }

  /** `sendPush(token, body)`: a token that fails the format check is dropped
      before any provider call; otherwise one note is sent, and the provider's
      answer (`accepted`) only decides what is logged. */
  function SendPush(token: string, body: string, isPushToken: string -> bool, accepted: bool): (d: Dispatch)
    ensures d != NoPush
    ensures d.Dropped? <==> !isPushToken(token)
    ensures (d.Delivered? || d.Failed?) ==> d.note == Note(token, Sound, Title, body)
    ensures d.Delivered? <==> isPushToken(token) && accepted
  {
    if !isPushToken(token) then Dropped(token)
    else
      var note := Note(token, Sound, Title, body);
      if accepted then Delivered(note) else Failed(note)
  }
}
