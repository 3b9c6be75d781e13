/** The optional value every module of the model shares. */
module Basics {
  datatype Option<+T> = None | Some(value: T)

  /** A loop over a set takes one element from what is left and adds it to what is done. */
  lemma TakeOne<T>(all: set<T>, todo: set<T>, done: set<T>, x: T)
    requires todo + done == all && todo !! done && x in todo
    ensures (todo - {x}) + (done + {x}) == all && (todo - {x}) !! (done + {x})
    ensures x in all && x !in done && |todo - {x}| < |todo|
  {
  }
}
