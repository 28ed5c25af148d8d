/** An optional value: `None` stands for a sprite removed from its group. */
module Options {
  datatype Option<+T> = None | Some(value: T)
}
