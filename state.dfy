/**
 * What a view's event handler asks the application to do with the state
 * stack. Only `Keep` and `PopState` are acted upon by the run loop; every
 * other request is folded into `Other`.
 */
module State {

  datatype CommandResult = Keep | PopState | Other
}
