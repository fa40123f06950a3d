/** The history of an audio or text playout: what became of each number. */
module Playout {
  import opened Basics
  import opened JitterNodes

  datatype Slot =
    | Delivered(number: U16, packet: Packet)
    | Concealed(number: U16)
    | Restarted(number: U16)

  /** Slots are consecutive numbers, each delivery is of its slot's number, and
      the target is the number after the last slot. */
  ghost predicate SlotsOk(slots: seq<Slot>, target: U16) {
    && (forall i :: 0 <= i < |slots| ==> slots[i].number == slots[0].number + i)
    && (forall i :: 0 <= i < |slots| && slots[i].Delivered? ==> slots[i].packet.seqNo == slots[i].number)
    && target == if slots == [] then 0 else (slots[|slots| - 1].number + 1) % 0x1_0000
  }

  /** The slots a new one goes after: none, if there is no target yet. */
  function Before(slots: seq<Slot>, target: U16): seq<Slot> { if target == 0 then [] else slots }

  lemma NextSlot(slots: seq<Slot>, target: U16, slot: Slot)
    requires SlotsOk(slots, target) && (target != 0 ==> slot.number == target)
    requires slot.Delivered? ==> slot.packet.seqNo == slot.number
    ensures SlotsOk(Before(slots, target) + [slot], (slot.number + 1) % 0x1_0000)
  {
    var before := Before(slots, target);
    var after := before + [slot];
    forall i | 0 <= i < |after|
      ensures after[i].number == after[0].number + i
      ensures (after[i].Delivered? ==> after[i].packet.seqNo == after[i].number)
    {
      if i < |before| { assert after[i] == slots[i] && after[0] == slots[0]; }
      else if before != [] { assert slots[|slots| - 1].number == slots[0].number + |slots| - 1; }
    }
  }

  /** No number is played twice, and one that was concealed or gave rise to a
      restart is never delivered, before or after. */
  lemma EachNumberOnce(slots: seq<Slot>, target: U16, i: nat, j: nat)
    requires SlotsOk(slots, target) && i < j < |slots|
    ensures slots[i].number != slots[j].number
    ensures slots[i].Delivered? && slots[j].Delivered? ==> slots[i].packet != slots[j].packet
  {
    assert slots[i].number == slots[0].number + i && slots[j].number == slots[0].number + j;
  }

  /** A number that has been played is not played again, whatever is appended to the
      history; so a packet that shows up late is not delivered from there on. */
  lemma LateArrivalNeverPlayed(slots: seq<Slot>, more: seq<Slot>, target: U16, late: Packet)
    requires SlotsOk(slots + more, target)
    requires exists i :: 0 <= i < |slots| && slots[i].number == late.seqNo
    ensures forall k :: 0 <= k < |more| ==> more[k].number != late.seqNo
    ensures forall k :: 0 <= k < |more| && more[k].Delivered? ==> more[k].packet != late
  {
    var all := slots + more;
    var i :| 0 <= i < |slots| && slots[i].number == late.seqNo;
    assert all[i].number == all[0].number + i;
    forall k | 0 <= k < |more| ensures more[k].number != late.seqNo {
      assert all[|slots| + k] == more[k];
    }
    forall k | 0 <= k < |more| && more[k].Delivered? ensures more[k].packet != late {
      assert all[|slots| + k] == more[k];
    }
  }
}
