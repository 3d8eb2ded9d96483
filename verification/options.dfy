/** An optional value: `None` stands for JavaScript's `undefined` (an absent
    query parameter) or for a number that is not finite (NaN, Infinity). */
module Options {

  datatype Option<+T> = None | Some(value: T)
}
