/** The three-flop synchroniser with edge detection. */
module CDCSynchron {

  datatype Sync = Sync(bit0: bool, bit1: bool, bit2: bool) {
    predicate Value() { bit1 }
    predicate Rising() { !bit2 && bit1 }
    predicate Falling() { bit2 && !bit1 }
  }

  function SyncClock(s: Sync, async: bool): Sync {
    Sync(async, s.bit0, s.bit1)
  }

  class Synchroniser {
    var bit0: bool
    var bit1: bool
    var bit2: bool

    function View(): Sync
      reads this
    {
      Sync(bit0, bit1, bit2)
    }

    constructor (b0: bool, b1: bool, b2: bool)
      ensures View() == Sync(b0, b1, b2)
    {
      bit0, bit1, bit2 := b0, b1, b2;
    }

    method Clock(async: bool)
      modifies this
      ensures View() == SyncClock(old(View()), async)
    {
      bit2 := bit1;
      bit1 := bit0;
      bit0 := async;
    }
  }
}
