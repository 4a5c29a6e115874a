/** Facts about draining a set of pending keys one key at a time. */
module Sets {
  /** Taking one key off the pending ones moves it to the done ones and shrinks what is left. */
  lemma PendingShrinks<T>(keys: set<T>, pending: set<T>, x: T)
    requires pending <= keys && x in pending
    ensures pending - {x} <= keys && |pending - {x}| < |pending|
    ensures keys - (pending - {x}) == (keys - pending) + {x}
  {
    assert pending == (pending - {x}) + {x};
  }
}
