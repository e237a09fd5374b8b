/** Datatypes shared by every module of the project. */
module Common {

  datatype Option<+T> = None | Some(value: T)

  datatype Pair<+A, +B> = Pair(fst: A, snd: B)

  type byte = x: int | 0 <= x < 256
}
