/** The events clients exchange through the relay, by event name, with their payloads.
    Every event except `clear` carries the sender's display name. */
module Messages {

  datatype Msg =
    | Drawing(x0: real, y0: real, x1: real, y1: real, color: string, size: real, username: string)
    | Erasing(x0: real, y0: real, x1: real, y1: real, size: real, username: string)
    | MouseMove(x: real, y: real, username: string)
    | StoppedDrawing(username: string)
    | Clear

  /** Whether the message was sent by someone other than `me`; `clear` names no sender. */
  predicate FromPeer(m: Msg, me: string) {
    !m.Clear? && m.username != me
  }
}
