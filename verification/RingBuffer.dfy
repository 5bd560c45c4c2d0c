/** The bounded character queue between an interrupt handler and its readers. */
module RingBuffers {
  import opened Options

  const BUFF_SIZE := 16

  /** struct RingBuffer, with the two cursors as indices into the buffer. */
  class RingBuffer {
    const buff: array<char>
    var consumer: nat
    var producer: nat

    ghost predicate Valid()
      reads this
    {
      buff.Length == BUFF_SIZE && consumer < BUFF_SIZE && producer < BUFF_SIZE
    }

    /** The characters waiting, oldest first. */
    ghost function Contents(): (r: seq<char>)
      requires Valid()
      reads this, buff
      ensures |r| < BUFF_SIZE
    {
      if consumer <= producer then buff[consumer..producer] else buff[consumer..] + buff[..producer]
    }

    constructor ()
      ensures Valid() && Contents() == [] && fresh(buff)
    {
      buff := new char[BUFF_SIZE];
      consumer, producer := 0, 0;
    }

    /** The take that ring_consumer_next and ring_consumer_block_next share. */
    method Take() returns (next: char)
      requires Valid() && Contents() != []
      modifies this`consumer
      ensures Valid() && next == old(Contents())[0] && Contents() == old(Contents())[1..]
    {
      next := buff[consumer];
      consumer := consumer + 1;
      if consumer >= BUFF_SIZE {
        consumer := 0;
      }
    }

    /** ring_consumer_next */
    method ConsumerNext() returns (next: Option<char>)
      requires Valid()
      modifies this`consumer
      ensures Valid()
      ensures old(Contents()) == [] ==> next == None && Contents() == []
      ensures old(Contents()) != [] ==> next == Some(old(Contents())[0]) && Contents() == old(Contents())[1..]
    {
      if consumer == producer {
        return None;
      }
      var c := Take();
      return Some(c);
    }

    /** ring_producer_add_char: one cell stays free, so that full and empty differ. */
    method AddChar(c: char) returns (added: bool)
      requires Valid()
      modifies this`producer, buff
      ensures Valid() && added == (|old(Contents())| < BUFF_SIZE - 1)
      ensures Contents() == if added then old(Contents()) + [c] else old(Contents())
    {
      if producer == consumer - 1 || (consumer == 0 && producer == BUFF_SIZE - 1) {
        return false;
      }
      buff[producer] := c;
      producer := producer + 1;
      if producer >= BUFF_SIZE {
        producer := 0;
      }
      return true;
    }
  }
}
