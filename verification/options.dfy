/** An optional value. The snake's body holds `Option<Cell>` entries: a real
    segment is `Some(cell)`, a growth placeholder (the literal `0` the game pushes
    when the snake eats) is `None`, whose coordinates are undefined. */
module Options {

  datatype Option<+T> = None | Some(value: T)
}
