/**
 * Terminal input events as the views receive them (termimad's `Event`),
 * reduced to what the key constants of src/keys.rs distinguish.
 */
module Keys {

  datatype KeyCode =
    | Char(c: char)
    | Up | Down | PageUp | PageDown | Home | End
    | Esc | Enter
    | OtherKey

  datatype Modifier = Shift | Control | Alt

  datatype Event =
    | Key(code: KeyCode, modifiers: set<Modifier>)
    | Resize(width: nat, height: nat)
    | Mouse

  /** `Event::simple_key(code)`: the key pressed without any modifier. */
  function SimpleKey(code: KeyCode): Event
  {
    Key(code, {})
  }

  /** The `Q` constant: a plain lower-case 'q'. */
  const Q: Event := SimpleKey(Char('q'))
}
