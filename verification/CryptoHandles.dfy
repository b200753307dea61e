/** Generation handles of the BLE key and cipher tables: a slot index and a
    24-bit generation packed into one 32-bit word. */
module CryptoHandles {
  import opened Common

  const SLOT_COUNT: nat := 2
  const GENERATIONS: nat := 0x100_0000
  const PERIOD: nat := 0xff_ffff

  /** Wrapping add, 24-bit mask, and zero skipped. */
  function NextGeneration(current: u32): u32 {
    var next := (current + 1) % 0x1_0000_0000 % GENERATIONS;
    if next < 1 then 1 else next
  }

  /** The 32-bit shift drops what a generation has above bit 23; the index takes the free low byte. */
  function EncodeHandle(index: nat, generation: u32): u32
    requires index < SLOT_COUNT
  {
    (generation * 256) % 0x1_0000_0000 + (index + 1)
  }

  function DecodeHandle(handle: u32): Option<(nat, u32)> {
    var raw := handle % 256;
    var generation := handle / 256;
    if raw == 0 || raw > SLOT_COUNT || generation == 0 then None else Some((raw - 1, generation))
  }

  /** Decoding inverts encoding on every index and every generation in use. */
  lemma DecodeEncoded(index: nat, generation: u32)
    requires index < SLOT_COUNT && 1 <= generation < GENERATIONS
    ensures DecodeHandle(EncodeHandle(index, generation)) == Some((index, generation))
  {
    var handle := generation * 256 + (index + 1);
    assert EncodeHandle(index, generation) == handle;
    assert handle / 256 == generation && handle % 256 == index + 1;
  }

  /** Encoding inverts decoding on every word that decodes at all, so a slot and
      generation have exactly one handle. */
  lemma EncodeDecoded(handle: u32)
    requires DecodeHandle(handle).Some?
    ensures var (index, generation) := DecodeHandle(handle).value;
            && index < SLOT_COUNT && 1 <= generation < GENERATIONS
            && EncodeHandle(index, generation) == handle
  {
    assert handle == handle / 256 * 256 + handle % 256;
    assert handle / 256 < GENERATIONS;
  }

  /** The generation of a slot that has been taken `epoch` times since reset. */
  function GenerationAfter(epoch: nat): (g: u32)
    ensures g < GENERATIONS
    ensures g == 0 <==> epoch == 0
  {
    if epoch == 0 then 0 else (epoch - 1) % PERIOD + 1
  }

  lemma GenerationAdvances(epoch: nat)
    ensures NextGeneration(GenerationAfter(epoch)) == GenerationAfter(epoch + 1)
  {
    if epoch > 0 {
      var q, r := (epoch - 1) / PERIOD, (epoch - 1) % PERIOD;
      if r == PERIOD - 1 {
        DivisionIsUnique(epoch, q + 1, 0);
      } else {
        DivisionIsUnique(epoch, q, r + 1);
      }
    }
  }

  lemma DivisionIsUnique(n: nat, q: nat, r: nat)
    requires r < PERIOD && n == q * PERIOD + r
    ensures n / PERIOD == q && n % PERIOD == r
  {
  }

  /** Generations repeat with period exactly 2^24 - 1. */
  lemma GenerationsRepeat(early: nat, late: nat)
    requires 1 <= early <= late
    ensures GenerationAfter(early) == GenerationAfter(late) <==> (late - early) % PERIOD == 0
  {
    var d := late - early;
    var qa, ra := (early - 1) / PERIOD, (early - 1) % PERIOD;
    var qd, rd := d / PERIOD, d % PERIOD;
    assert early - 1 == qa * PERIOD + ra && d == qd * PERIOD + rd;
    if ra + rd < PERIOD {
      assert late - 1 == (qa + qd) * PERIOD + (ra + rd);
      DivisionIsUnique(late - 1, qa + qd, ra + rd);
    } else {
      assert late - 1 == (qa + qd + 1) * PERIOD + (ra + rd - PERIOD);
      DivisionIsUnique(late - 1, qa + qd + 1, ra + rd - PERIOD);
    }
  }

  /** Fewer than 2^24 - 1 re-allocations apart, different incarnations of a slot
      have different handles. */
  lemma NearbyGenerationsDiffer(early: nat, late: nat)
    requires 1 <= early < late < early + PERIOD
    ensures GenerationAfter(early) != GenerationAfter(late)
  {
    GenerationsRepeat(early, late);
  }

  /** A handle issued for one taking of a slot and found to name another, no
      earlier and less than a period later, was issued for that very taking. */
  lemma HandleNamesOneTaking(index: nat, issued: nat, other: nat, found: nat)
    requires index < SLOT_COUNT && other < SLOT_COUNT
    requires 1 <= issued <= found < issued + PERIOD
    requires EncodeHandle(index, GenerationAfter(issued)) == EncodeHandle(other, GenerationAfter(found))
    ensures index == other && issued == found
  {
    DecodeEncoded(index, GenerationAfter(issued));
    DecodeEncoded(other, GenerationAfter(found));
    if issued < found {
      NearbyGenerationsDiffer(issued, found);
    }
  }
}
