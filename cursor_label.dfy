/** The remote cursor tracker: one floating label slot, reused for every peer, placed at the
    peer's last reported position (shifted by the canvas offset, and 20 pixels down) and
    naming that peer. */
module CursorLabel {
  import opened Messages

  datatype Label = Label(left: real, top: real, text: string, visible: bool)

  /** The label is displayed exactly when its text is non-empty. */
  predicate Consistent(l: Label) {
    l.visible <==> l.text != ""
  }

  /** Writing the label: position (x, y + 20), text `user`, displayed only for a non-empty name. */
  function Place(x: real, y: real, user: string): (l: Label)
    ensures Consistent(l)
    ensures l.text == user && l.left == x && l.top == y + 20.0
  {
    Label(x, y + 20.0, user, user != "")
  }

  /** The label as a peer's `stoppedDrawing` leaves it. */
  function Hidden(): (l: Label)
    ensures Consistent(l) && !l.visible && l.text == ""
  {
    Place(0.0, 0.0, "")
  }

  /** The page position a positional event reports: the destination point of a stroke,
      the pointer of a `mousemove`. */
  function TargetX(m: Msg): real
    requires m.Drawing? || m.Erasing? || m.MouseMove?
  {
    if m.MouseMove? then m.x else m.x1
  }

  function TargetY(m: Msg): real
    requires m.Drawing? || m.Erasing? || m.MouseMove?
  {
    if m.MouseMove? then m.y else m.y1
  }

  /** The label after the client `me` receives `m`, the canvas sitting at
      (offsetLeft, offsetTop) in the page. */
  function Observe(l: Label, me: string, m: Msg, offsetLeft: real, offsetTop: real): (r: Label)
    ensures Consistent(l) ==> Consistent(r)
    ensures !FromPeer(m, me) ==> r == l
    ensures FromPeer(m, me) && m.StoppedDrawing? ==> r == Hidden()
    ensures FromPeer(m, me) && !m.StoppedDrawing? ==>
      r.text == m.username && (r.visible <==> m.username != "") &&
      r.left == TargetX(m) + offsetLeft && r.top == TargetY(m) + offsetTop + 20.0
  {
    match m
    case Drawing(_, _, x1, y1, _, _, user) =>
      if user != me then Place(x1 + offsetLeft, y1 + offsetTop, user) else l
    case Erasing(_, _, x1, y1, _, user) =>
      if user != me then Place(x1 + offsetLeft, y1 + offsetTop, user) else l
    case MouseMove(x, y, user) =>
      if user != me then Place(x + offsetLeft, y + offsetTop, user) else l
    case StoppedDrawing(user) =>
      if user != me then Place(0.0, 0.0, "") else l
    case Clear => l
  }

  /** The label after receiving `ms` in order. */
  function ObserveAll(l: Label, me: string, ms: seq<Msg>, offsetLeft: real, offsetTop: real): (r: Label)
    ensures Consistent(l) ==> Consistent(r)
    decreases |ms|
  {
    if ms == [] then l else ObserveAll(Observe(l, me, ms[0], offsetLeft, offsetTop), me, ms[1..], offsetLeft, offsetTop)
  }

  /** A peer's second `stoppedDrawing` in a row changes nothing. */
  lemma StopIdempotent(l: Label, me: string, peer: string, offsetLeft: real, offsetTop: real)
    requires peer != me
    ensures var once := Observe(l, me, StoppedDrawing(peer), offsetLeft, offsetTop);
      Observe(once, me, StoppedDrawing(peer), offsetLeft, offsetTop) == once
  {
  }

  /** With one shared slot, any peer's `stoppedDrawing` hides the label, even while it names
      another peer. */
  lemma StopHidesAnyPeer(a: string, b: string, me: string, x: real, y: real, offsetLeft: real, offsetTop: real)
    requires a != me && b != me && a != b && a != ""
    ensures var shown := Place(x, y, a);
      shown.visible && !Observe(shown, me, StoppedDrawing(b), offsetLeft, offsetTop).visible
  {
  }

  /** Events carrying the local name (and `clear`) never move the label. */
  lemma {:induction false} OwnEventsIgnored(l: Label, me: string, ms: seq<Msg>, offsetLeft: real, offsetTop: real)
    requires forall i :: 0 <= i < |ms| ==> !FromPeer(ms[i], me)
    ensures ObserveAll(l, me, ms, offsetLeft, offsetTop) == l
    decreases |ms|
  {
    if ms != [] {
      OwnEventsIgnored(l, me, ms[1..], offsetLeft, offsetTop);
    }
  }

  /** Receiving one more event acts on the label the earlier events left. */
  lemma {:induction false} ObserveAllSnoc(l: Label, me: string, ms: seq<Msg>, m: Msg, offsetLeft: real, offsetTop: real)
    ensures ObserveAll(l, me, ms + [m], offsetLeft, offsetTop)
         == Observe(ObserveAll(l, me, ms, offsetLeft, offsetTop), me, m, offsetLeft, offsetTop)
    decreases |ms|
  {
    if ms == [] {
      assert [] + [m] == [m];
    } else {
      assert (ms + [m])[1..] == ms[1..] + [m];
      ObserveAllSnoc(Observe(l, me, ms[0], offsetLeft, offsetTop), me, ms[1..], m, offsetLeft, offsetTop);
    }
  }

  /** The last peer event decides the label, whatever came before it. */
  lemma LastPeerEventDecides(l: Label, me: string, ms: seq<Msg>, m: Msg, offsetLeft: real, offsetTop: real)
    requires FromPeer(m, me)
    ensures ObserveAll(l, me, ms + [m], offsetLeft, offsetTop) == Observe(Hidden(), me, m, offsetLeft, offsetTop)
  {
    ObserveAllSnoc(l, me, ms, m, offsetLeft, offsetTop);
  }
}
