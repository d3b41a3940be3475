/**
 * A SwiftUI `Binding`: a shared, mutable cell that several sections may read
 * and write. Writes sent with `DispatchQueue.main.async` are kept, in the
 * order they were sent, until the main queue next runs them.
 */
module Bindings {

  class Binding<T> {
    var wrappedValue: T
    /** Writes queued on the main queue and not yet run, oldest first. */
    var pendingWrites: seq<T>

    constructor (initial: T)
      ensures wrappedValue == initial && pendingWrites == []
    {
      wrappedValue := initial;
      pendingWrites := [];
    }

    /** `DispatchQueue.main.async { binding.wrappedValue = v }`: nothing is written yet. */
    method WriteAsync(v: T)
      modifies this`pendingWrites
      ensures pendingWrites == old(pendingWrites) + [v]
    {
      pendingWrites := pendingWrites + [v];
    }

    /** The main queue's next turn: every queued write runs, in the order it was queued. */
    method RunPendingWrites()
      modifies this
      ensures pendingWrites == []
      ensures old(pendingWrites) == [] ==> wrappedValue == old(wrappedValue)
      ensures old(pendingWrites) != [] ==> wrappedValue == old(pendingWrites)[|old(pendingWrites)| - 1]
    {
      var writes := pendingWrites;
      var i := 0;
      while i < |writes|
        invariant 0 <= i <= |writes|
        invariant i == 0 ==> wrappedValue == old(wrappedValue)
        invariant i > 0 ==> wrappedValue == writes[i - 1]
      {
        wrappedValue := writes[i];
        i := i + 1;
      }
      pendingWrites := [];
    }
  }
}
