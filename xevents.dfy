/** The X11 device events the watchers receive, reduced to what the
    handlers read: the event type code, the detail (button or keycode) and
    the pointer position on the root window. */
module XEvents {
  // Event type codes of the X protocol (X.h).
  const KeyPress: int := 2
  const ButtonPress: int := 4
  const MotionNotify: int := 6

  datatype Event = Event(evType: int, detail: int, rootX: int, rootY: int)
}
