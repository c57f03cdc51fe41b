/** The source of messageIds (uuid v4 in the source): every id it issues is new. */
module Uuid {
  import opened Messages

  class UuidSource {
    var nextSerial: nat
    /** Every id handed out so far. */
    ghost var issued: set<MessageId>

    ghost predicate Valid()
      reads this
    {
      forall id :: id in issued ==> id.serial < nextSerial
    }

    constructor ()
      ensures Valid() && issued == {}
    {
      nextSerial := 0;
      issued := {};
    }

    /** `uuidv4()`: an id never handed out before. */
    method Next() returns (id: MessageId)
      requires Valid()
      modifies this
      ensures Valid()
      ensures id !in old(issued)
      ensures issued == old(issued) + {id}
    {
      id := MessageId(nextSerial);
      nextSerial := nextSerial + 1;
      issued := issued + {id};
    }
  }
}
