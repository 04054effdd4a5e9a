/**
 * The FreeRTOS queue that carries GPIO edge records from the interrupt
 * handler to the PIR sensor task: created with room for ten `uint32_t` pin
 * numbers, filled by `xQueueSendFromISR` (which never blocks and drops the
 * record when the queue is full) and drained in FIFO order by `xQueueReceive`.
 */
module EdgeQueue {
  import opened Common

  /** The queue length passed to `xQueueCreate`. */
  const QueueLength: nat := 10

  /** The ring position `k` slots past the start of the array, for `k` under two laps. */
  function Wrap(k: nat): (r: nat)
    requires k < 2 * QueueLength
    ensures r < QueueLength
    ensures r == k % QueueLength
  {
    if k < QueueLength then k else k - QueueLength
  }

  /** A fixed-capacity ring of edge records (GPIO numbers) over an array of ten slots. */
  class EdgeFifo {
    const slots: array<uint32>
    var head: nat
    var count: nat

    ghost predicate Valid()
      reads this
    {
      slots.Length == QueueLength && head < QueueLength && count <= QueueLength
    }

    /** The queued records, oldest first. */
    ghost function Contents(): (s: seq<uint32>)
      reads this, slots
      requires Valid()
      ensures |s| == count
    {
      seq(count, i requires 0 <= i < count && Valid() reads this, slots => slots[Wrap(head + i)])
    }

    /** `xQueueCreate(10, sizeof(uint32_t))`: an empty queue of capacity ten. */
    constructor ()
      ensures Valid() && fresh(slots)
      ensures Contents() == []
    {
      slots := new uint32[QueueLength];
      head, count := 0, 0;
    }

    /**
     * `gpio_isr_handler`: `xQueueSendFromISR` of the pin number. It never
     * blocks; when the queue is full the record is dropped and the queued
     * records are left as they were.
     */
    method SendFromIsr(pin: uint32) returns (queued: bool)
      requires Valid()
      modifies this, slots
      ensures Valid()
      ensures queued <==> |old(Contents())| < QueueLength
      ensures Contents() == if queued then old(Contents()) + [pin] else old(Contents())
    {
      ghost var before := Contents();
      queued := count < QueueLength;
      if queued {
        slots[Wrap(head + count)] := pin;
        count := count + 1;
        forall i | 0 <= i < count
          ensures Contents()[i] == (before + [pin])[i]
        {
          if i < count - 1 {
            assert Wrap(head + i) != Wrap(head + count - 1);
          }
        }
        assert Contents() == before + [pin];
      }
    }

    /**
     * `xQueueReceive` in the sensor task: the oldest record when there is one;
     * `None` stands for the task still being blocked on an empty queue.
     */
    method Receive() returns (r: Option<uint32>)
      requires Valid()
      modifies this
      ensures Valid()
      ensures old(Contents()) == [] ==> r == None && Contents() == []
      ensures old(Contents()) != [] ==> r == Some(old(Contents())[0]) && Contents() == old(Contents())[1..]
    {
      ghost var before := Contents();
      if count == 0 {
        r := None;
      } else {
        assert before[0] == slots[Wrap(head + 0)];
        r := Some(slots[head]);
        head := Wrap(head + 1);
        count := count - 1;
        forall i | 0 <= i < count
          ensures Contents()[i] == before[1..][i]
        {
          assert Wrap(head + i) == Wrap(old(head) + i + 1);
        }
        assert Contents() == before[1..];
      }
    }
  }
}
