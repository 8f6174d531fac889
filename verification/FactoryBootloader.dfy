/**
  The factory bootloader: it makes the firmware in the EEPROM unusable, writes
  and verifies its body, and only then writes and verifies its header.  Every
  content that the EEPROM has at any time is recorded, including what a write
  that is cut short leaves behind.
 */
module FactoryBootloader {

  import opened Bytes

  type Memory = seq<Byte>

  const FIRMWARE_BUFFER_SIZE := 256
  const CONTROL_HEADER_SIZE := 6
  const EEPROM_PAGESIZE := 128
  const NVM_SANITY_LENGTH := 2

  datatype Status = SUCCESS | DATA_CORRUPT | IO_ERROR

  // ---------- Contents of the EEPROM ----------

  /** The second content equals the first outside the given range. */
  ghost predicate Confined(before: Memory, after: Memory, lo: nat, hi: nat) {
    |after| == |before| && forall i {:trigger after[i]} :: 0 <= i < |before| && !(lo <= i < hi) ==> after[i] == before[i]
  }

  ghost predicate Matches(mem: Memory, image: Memory, lo: nat, hi: nat) {
    hi <= |mem| && hi <= |image| && forall i {:trigger mem[i]} :: lo <= i < hi ==> mem[i] == image[i]
  }

  /** A header that looks complete implies that the whole firmware is. */
  ghost predicate Safe(mem: Memory, image: Memory) {
    Matches(mem, image, 0, CONTROL_HEADER_SIZE) ==> Matches(mem, image, 0, |image|)
  }

  ghost predicate HeaderNotZero(image: Memory)
    requires |image| >= CONTROL_HEADER_SIZE
  {
    exists i :: 0 <= i < CONTROL_HEADER_SIZE && image[i] != 0
  }

  ghost predicate HeaderDestroyed(mem: Memory) {
    |mem| >= CONTROL_HEADER_SIZE && forall i :: 0 <= i < CONTROL_HEADER_SIZE ==> mem[i] == 0
  }

  /** While the body is written the header stays different from the image's, so nothing is taken for complete. */
  lemma BodyPhaseIsSafe(image: Memory, before: Memory, after: Memory)
    requires CONTROL_HEADER_SIZE <= |image| <= |before|
    requires !Matches(before, image, 0, CONTROL_HEADER_SIZE) && Confined(before, after, CONTROL_HEADER_SIZE, |image|)
    ensures Safe(after, image)
  {
    var i :| 0 <= i < CONTROL_HEADER_SIZE && before[i] != image[i];
    assert after[i] == before[i];
  }

  /** Writing the body is safe, whatever is torn, exactly if the header differs from the image's before, or there is no body. */
  lemma BodyPhaseIsSafeExactly(image: Memory, before: Memory)
    requires CONTROL_HEADER_SIZE <= |image| <= |before|
    ensures (forall after :: Confined(before, after, CONTROL_HEADER_SIZE, |image|) ==> Safe(after, image)) <==>
            !Matches(before, image, 0, CONTROL_HEADER_SIZE) || |image| == CONTROL_HEADER_SIZE
  {
    if !Matches(before, image, 0, CONTROL_HEADER_SIZE) {
      forall after | Confined(before, after, CONTROL_HEADER_SIZE, |image|) ensures Safe(after, image) {
        BodyPhaseIsSafe(image, before, after);
      }
    } else if |image| > CONTROL_HEADER_SIZE {
      var other := if image[CONTROL_HEADER_SIZE] == 0 then 1 else 0;
      var torn := before[CONTROL_HEADER_SIZE := other];
      assert Confined(before, torn, CONTROL_HEADER_SIZE, |image|);
      assert torn[CONTROL_HEADER_SIZE] != image[CONTROL_HEADER_SIZE];
      assert !Safe(torn, image);
    }
  }

  /** While the header is written the body stays complete. */
  lemma HeaderPhaseIsSafe(image: Memory, before: Memory, after: Memory)
    requires CONTROL_HEADER_SIZE <= |image| <= |before|
    requires Matches(before, image, CONTROL_HEADER_SIZE, |image|) && Confined(before, after, 0, CONTROL_HEADER_SIZE)
    ensures Safe(after, image)
  {
  }

  /** Writing the header is safe, whatever is torn, exactly if the body was complete before. */
  lemma HeaderPhaseIsSafeExactly(image: Memory, before: Memory)
    requires CONTROL_HEADER_SIZE <= |image| <= |before|
    ensures (forall after :: Confined(before, after, 0, CONTROL_HEADER_SIZE) ==> Safe(after, image)) <==>
            Matches(before, image, CONTROL_HEADER_SIZE, |image|)
  {
    if !Matches(before, image, CONTROL_HEADER_SIZE, |image|) {
      var written := image[..CONTROL_HEADER_SIZE] + before[CONTROL_HEADER_SIZE..];
      assert Confined(before, written, 0, CONTROL_HEADER_SIZE);
      var i :| CONTROL_HEADER_SIZE <= i < |image| && before[i] != image[i];
      assert written[i] != image[i];
      assert !Safe(written, image);
    }
  }

  /** A destroyed header differs from the image's exactly if that is not all zero. */
  lemma DestroyedHeaderDiffers(image: Memory, mem: Memory)
    requires CONTROL_HEADER_SIZE <= |image| <= |mem| && HeaderDestroyed(mem)
    ensures !Matches(mem, image, 0, CONTROL_HEADER_SIZE) <==> HeaderNotZero(image)
  {
    if HeaderNotZero(image) {
      var i :| 0 <= i < CONTROL_HEADER_SIZE && image[i] != 0;
      assert mem[i] != image[i];
    }
  }

  /** How many of the bytes fit into the page of the address. */
  function BytesInPage(address: nat, count: nat): (bytes: nat)
    requires count > 0
    ensures 0 < bytes <= count && address % EEPROM_PAGESIZE + bytes <= EEPROM_PAGESIZE
  {
    var room := EEPROM_PAGESIZE - address % EEPROM_PAGESIZE;
    if room < count then room else count
  }

  /** If not all bytes fit, those that do fill the page. */
  lemma PageIsFilled(address: nat, count: nat)
    requires count > 0
    ensures BytesInPage(address, count) < count ==> (address + BytesInPage(address, count)) % EEPROM_PAGESIZE == 0
  {
  }

  /** Destroying the header makes the content safe exactly if the header of the image is not zero or the body is complete. */
  lemma DestroyedIsSafe(image: Memory, mem: Memory)
    requires CONTROL_HEADER_SIZE <= |image| <= |mem| && HeaderDestroyed(mem)
    ensures Safe(mem, image) <==> HeaderNotZero(image) || Matches(mem, image, CONTROL_HEADER_SIZE, |image|)
  {
    DestroyedHeaderDiffers(image, mem);
  }

  lemma ConfinedTwice(origin: Memory, before: Memory, after: Memory, lo: nat, hi: nat, from: nat, to: nat)
    requires Confined(origin, before, lo, hi) && lo <= from && to <= hi && Confined(before, after, from, to)
    ensures Confined(origin, after, lo, hi)
  {
    forall i {:trigger after[i]} | 0 <= i < |origin| && !(lo <= i < hi) ensures after[i] == origin[i] {
      assert after[i] == before[i] == origin[i];
    }
  }

  /** The content with the data stored at the address. */
  function Stored(before: Memory, address: nat, data: Memory): Memory
    requires address + |data| <= |before|
  {
    before[..address] + data + before[address + |data|..]
  }

  lemma NextPage(origin: Memory, before: Memory, after: Memory, data: Memory, address: nat, done: nat, page: Memory)
    requires address + |data| <= |origin| && done + |page| <= |data| && page == data[done..done + |page|]
    requires before == Stored(origin, address, data[..done]) && after == Stored(before, address + done, page)
    ensures after == Stored(origin, address, data[..done + |page|])
  {
    assert before[..address + done] == origin[..address] + data[..done];
    assert before[address + done + |page|..] == origin[address + (done + |page|)..];
    assert data[..done] + page == data[..done + |page|];
  }

  // ---------- The device ----------

  class Eeprom {
    var mem: Memory

    /** Whether a transfer that reports success has stored its data, which the bootloader cannot know. */
    const reliable: bool

    /** Whether every transfer completes. */
    const works: bool

    /** How many transfers failed so far. */
    ghost var failures: nat

    /** Every content so far; the last one is the present content. */
    ghost var history: seq<Memory>

    ghost predicate Valid()
      reads this
    {
      history != [] && history[|history| - 1] == mem
    }

    /** Everything recorded since the given point differs from the given content in the given range only. */
    ghost predicate ConfinedSince(start: nat, before: Memory, lo: nat, hi: nat)
      reads this
    {
      start <= |history| && forall k :: start <= k < |history| ==> Confined(before, history[k], lo, hi)
    }

    constructor (content: Memory, reliable: bool, works: bool)
      ensures Valid() && mem == content && history == [content] && failures == 0
      ensures this.reliable == reliable && this.works == works
    {
      mem, history, failures, this.reliable, this.works := content, [content], 0, reliable, works;
    }

    method Store(content: Memory)
      requires |content| == |mem|
      modifies `mem, `history
      ensures Valid() && mem == content && history == old(history) + [content]
    {
      mem := content;
      history := history + [mem];
    }

    /** An operation ends with an I/O error exactly if one of its transfers failed, which happens only on a device that does not work. */
    ghost predicate FailureCounted(before: nat, status: Status)
      reads this
    {
      before <= failures && (status == IO_ERROR <==> before < failures) && (works ==> failures == before)
    }

    /**
      Stands for the bus transfer of one page.  It may leave arbitrary bytes in its
      range, whatever it reports; only on a reliable device does success mean that the
      range holds the data.
     */
    method MasterWrite(address: nat, data: Memory) returns (status: Status)
      requires Valid() && address + |data| <= |mem|
      requires address % EEPROM_PAGESIZE + |data| <= EEPROM_PAGESIZE
      modifies this
      ensures Valid() && old(history) <= history
      ensures ConfinedSince(|old(history)|, old(mem), address, address + |data|)
      ensures Confined(old(mem), mem, address, address + |data|)
      ensures reliable && status == SUCCESS ==> mem == Stored(old(mem), address, data)
      ensures status != DATA_CORRUPT && FailureCounted(old(failures), status)
    {
      var before := mem;
      var torn: Memory := *;
      if |torn| == |data| {
        Store(Stored(before, address, torn));
      }
      var completes: bool := *;
      if completes || works {
        var stored: Memory := *;
        if reliable || |stored| != |data| {
          stored := data;
        }
        Store(Stored(before, address, stored));
        return SUCCESS;
      }
      failures := failures + 1;
      return IO_ERROR;
    }

    /** Splits a transfer at the page boundaries of the device. */
    method Write(address: nat, data: Memory) returns (status: Status)
      requires Valid() && address + |data| <= |mem|
      modifies this
      ensures Valid() && old(history) <= history
      ensures ConfinedSince(|old(history)|, old(mem), address, address + |data|)
      ensures Confined(old(mem), mem, address, address + |data|)
      ensures reliable && status == SUCCESS ==> mem == Stored(old(mem), address, data)
      ensures status != DATA_CORRUPT && FailureCounted(old(failures), status)
    {
      ghost var origin := mem;
      var done: nat := 0;
      while done < |data|
        invariant 0 <= done <= |data|
        invariant Valid() && old(history) <= history
        invariant Touched(|old(history)|, origin, address, address + |data|)
        invariant reliable ==> mem == Stored(origin, address, data[..done])
        invariant failures == old(failures)
      {
        var bytes := BytesInPage(address + done, |data| - done);
        var page := data[done..done + bytes];
        ghost var past, before := history, mem;
        status := MasterWrite(address + done, page);
        TouchedPage(|old(history)|, past, origin, before, address, address + |data|, address + done, bytes);
        if status != SUCCESS {
          return status;
        }
        if reliable {
          NextPage(origin, before, mem, data, address, done, page);
        }
        done := done + bytes;
      }
      assert data[..done] == data;
      return SUCCESS;
    }

    /** All content since the given point, and the present one, differs from the given one in the given range only. */
    ghost predicate Touched(start: nat, origin: Memory, lo: nat, hi: nat)
      reads this
    {
      ConfinedSince(start, origin, lo, hi) && Confined(origin, mem, lo, hi)
    }

    lemma TouchedPage(start: nat, past: seq<Memory>, origin: Memory, before: Memory, lo: nat, hi: nat, address: nat, bytes: nat)
      requires start <= |past| <= |history| && past <= history && lo <= address && address + bytes <= hi
      requires Confined(origin, before, lo, hi) && forall k :: start <= k < |past| ==> Confined(origin, past[k], lo, hi)
      requires Touched(|past|, before, address, address + bytes)
      ensures Touched(start, origin, lo, hi)
    {
      WidenConfined(origin, before, lo, hi, |past|, address, address + bytes);
      ConfinedTwice(origin, before, mem, lo, hi, address, address + bytes);
    }

    lemma WidenConfined(origin: Memory, before: Memory, lo: nat, hi: nat, start: nat, from: nat, to: nat)
      requires Confined(origin, before, lo, hi) && lo <= from && to <= hi
      requires ConfinedSince(start, before, from, to)
      ensures ConfinedSince(start, origin, lo, hi)
    {
      forall k | start <= k < |history| ensures Confined(origin, history[k], lo, hi) {
        assert Confined(before, history[k], from, to);
      }
    }

    /** Stands for the bus transfer from the device, which either fails or delivers what is there. */
    method Read(address: nat, buffer: array<Byte>, count: nat) returns (status: Status)
      requires address + count <= |mem| && count <= buffer.Length
      modifies buffer, `failures
      ensures status != DATA_CORRUPT && FailureCounted(old(failures), status)
      ensures status == SUCCESS ==> buffer[..count] == mem[address..address + count]
    {
      var completes: bool := *;
      if !completes && !works {
        failures := failures + 1;
        return IO_ERROR;
      }
      forall i | 0 <= i < count {
        buffer[i] := mem[address + i];
      }
      return SUCCESS;
    }
  }

  // ---------- The bootloader ----------

  datatype Outcome = BugCheck(status: Status, info: int) | Reset

  class Bootloader {
    const image: Memory
    const eeprom: Eeprom
    const buffer: array<Byte>
    var nvmSanity: Memory

    ghost predicate Valid()
      reads this, eeprom
    {
      && eeprom.Valid()
      && buffer.Length == FIRMWARE_BUFFER_SIZE
      && CONTROL_HEADER_SIZE <= |image| <= |eeprom.mem|
    }

    constructor (image: Memory, eeprom: Eeprom, nvmSanity: Memory)
      requires eeprom.Valid() && CONTROL_HEADER_SIZE <= |image| <= |eeprom.mem|
      ensures Valid() && fresh(buffer)
      ensures this.image == image && this.eeprom == eeprom && this.nvmSanity == nvmSanity
    {
      this.image, this.eeprom, this.nvmSanity := image, eeprom, nvmSanity;
      buffer := new Byte[FIRMWARE_BUFFER_SIZE];
    }

    /** Writes the given part of the image chunk by chunk. */
    method WriteFirmware(offset: nat, length: nat) returns (status: Status)
      requires Valid() && offset + length <= |image|
      modifies eeprom, buffer
      ensures Valid() && old(eeprom.history) <= eeprom.history
      ensures eeprom.ConfinedSince(|old(eeprom.history)|, old(eeprom.mem), offset, offset + length)
      ensures Confined(old(eeprom.mem), eeprom.mem, offset, offset + length)
      ensures eeprom.reliable && status == SUCCESS ==> Matches(eeprom.mem, image, offset, offset + length)
      ensures status != DATA_CORRUPT && eeprom.FailureCounted(old(eeprom.failures), status)
    {
      var addr: nat, len: nat := offset, length;
      while len != 0
        invariant addr + len == offset + length && offset <= addr
        invariant Valid() && old(eeprom.history) <= eeprom.history
        invariant eeprom.ConfinedSince(|old(eeprom.history)|, old(eeprom.mem), offset, offset + length)
        invariant Confined(old(eeprom.mem), eeprom.mem, offset, offset + length)
        invariant eeprom.reliable ==> Matches(eeprom.mem, image, offset, addr)
        invariant eeprom.failures == old(eeprom.failures)
        decreases len
      {
        var bytes := if FIRMWARE_BUFFER_SIZE < len then FIRMWARE_BUFFER_SIZE else len;
        forall i | 0 <= i < bytes {
          buffer[i] := image[addr + i];
        }
        ghost var start, before := |eeprom.history|, eeprom.mem;
        status := eeprom.Write(addr, buffer[..bytes]);
        eeprom.WidenConfined(old(eeprom.mem), before, offset, offset + length, start, addr, addr + bytes);
        if status != SUCCESS {
          return status;
        }
        if eeprom.reliable {
          WrittenMatches(before, eeprom.mem, buffer[..bytes], offset, addr);
        }
        addr, len := addr + bytes, len - bytes;
      }
      return SUCCESS;
    }

    /** The data that was written extends the part that matches the image. */
    lemma WrittenMatches(before: Memory, after: Memory, data: Memory, offset: nat, addr: nat)
      requires offset <= addr && addr + |data| <= |before| && addr + |data| <= |image|
      requires Matches(before, image, offset, addr) && data == image[addr..addr + |data|]
      requires after == Stored(before, addr, data)
      ensures Matches(after, image, offset, addr + |data|)
    {
    }

    /** Reads the given part back and compares it with the image. */
    method VerifyFirmware(offset: nat, length: nat) returns (status: Status)
      requires Valid() && offset + length <= |image|
      modifies buffer, eeprom`failures
      ensures Valid() && eeprom.FailureCounted(old(eeprom.failures), status)
      ensures status == SUCCESS ==> Matches(eeprom.mem, image, offset, offset + length)
      ensures status == DATA_CORRUPT ==> !Matches(eeprom.mem, image, offset, offset + length)
    {
      var addr: nat, len: nat := offset, length;
      while len != 0
        invariant addr + len == offset + length && offset <= addr
        invariant Valid() && eeprom.failures == old(eeprom.failures)
        invariant Matches(eeprom.mem, image, offset, addr)
        decreases len
      {
        var bytes := if FIRMWARE_BUFFER_SIZE < len then FIRMWARE_BUFFER_SIZE else len;
        status := eeprom.Read(addr, buffer, bytes);
        if status != SUCCESS {
          return status;
        }
        if buffer[..bytes] != image[addr..addr + bytes] {
          Mismatch(eeprom.mem, offset, length, addr, bytes);
          return DATA_CORRUPT;
        }
        forall i | addr <= i < addr + bytes ensures eeprom.mem[i] == image[i] {
          assert eeprom.mem[addr..addr + bytes][i - addr] == image[addr..addr + bytes][i - addr];
        }
        addr, len := addr + bytes, len - bytes;
      }
      return SUCCESS;
    }

    lemma Mismatch(mem: Memory, offset: nat, length: nat, addr: nat, bytes: nat)
      requires offset <= addr && addr + bytes <= offset + length <= |mem| && offset + length <= |image|
      requires mem[addr..addr + bytes] != image[addr..addr + bytes]
      ensures !Matches(mem, image, offset, offset + length)
    {
      var i :| 0 <= i < bytes && mem[addr..addr + bytes][i] != image[addr..addr + bytes][i];
      assert mem[addr + i] != image[addr + i];
    }

    /** Success means that the range was read back and equals the image, whatever the writes reported. */
    method FlashFirmware(offset: nat, length: nat) returns (status: Status)
      requires Valid() && offset + length <= |image|
      modifies eeprom, buffer
      ensures Valid() && old(eeprom.history) <= eeprom.history
      ensures eeprom.ConfinedSince(|old(eeprom.history)|, old(eeprom.mem), offset, offset + length)
      ensures Confined(old(eeprom.mem), eeprom.mem, offset, offset + length)
      ensures status == SUCCESS ==> Matches(eeprom.mem, image, offset, offset + length)
      ensures status == DATA_CORRUPT ==> !eeprom.reliable && !Matches(eeprom.mem, image, offset, offset + length)
      ensures eeprom.FailureCounted(old(eeprom.failures), status)
    {
      status := WriteFirmware(offset, length);
      if status != SUCCESS {
        return status;
      }
      status := VerifyFirmware(offset, length);
    }

    method DestroyFirmware() returns (status: Status)
      requires Valid()
      modifies eeprom
      ensures Valid() && old(eeprom.history) <= eeprom.history
      ensures eeprom.ConfinedSince(|old(eeprom.history)|, old(eeprom.mem), 0, CONTROL_HEADER_SIZE)
      ensures eeprom.reliable && status == SUCCESS ==> HeaderDestroyed(eeprom.mem)
      ensures status != DATA_CORRUPT && eeprom.FailureCounted(old(eeprom.failures), status)
    {
      var trash: Memory := seq(CONTROL_HEADER_SIZE, _ => 0);
      status := eeprom.Write(0, trash);
    }

    /**
      If the header differs from the image's once the firmware was destroyed, the EEPROM
      is safe at every later moment, whatever the transfers leave behind and report; and
      once the body was verified it is safe in any case.  The reset that disables this
      bootloader is reached exactly if no transfer fails and the whole image is in place
      in the end, which is sure on a device whose transfers complete and store their data.
     */
    method Run() returns (outcome: Outcome, ghost destroyed: nat, ghost verified: nat)
      requires Valid()
      modifies this, eeprom, buffer
      ensures old(eeprom.history) <= eeprom.history
      ensures destroyed < |eeprom.history| <==> !(outcome.BugCheck? && outcome.info == 0)
      ensures outcome.BugCheck? ==> outcome.info == (if destroyed < |eeprom.history| then 1 else 0)
      ensures destroyed < |eeprom.history| && !Matches(eeprom.history[destroyed], image, 0, CONTROL_HEADER_SIZE) ==>
                forall k :: destroyed <= k < |eeprom.history| ==> Safe(eeprom.history[k], image)
      ensures destroyed < |eeprom.history| && eeprom.reliable ==> HeaderDestroyed(eeprom.history[destroyed])
      ensures forall k :: verified <= k < |eeprom.history| ==> Safe(eeprom.history[k], image)
      ensures verified < |eeprom.history| ==>
                destroyed <= verified && Matches(eeprom.history[verified], image, CONTROL_HEADER_SIZE, |image|)
      ensures outcome.Reset? ==> verified < |eeprom.history|
      ensures outcome.Reset? ==> Matches(eeprom.mem, image, 0, |image|) && nvmSanity == seq(NVM_SANITY_LENGTH, _ => 0)
      ensures !outcome.Reset? ==> nvmSanity == old(nvmSanity) && outcome.status != SUCCESS
      ensures eeprom.FailureCounted(old(eeprom.failures), if outcome.Reset? then SUCCESS else outcome.status)
      ensures outcome.Reset? <==> eeprom.failures == old(eeprom.failures) && Matches(eeprom.mem, image, 0, |image|)
      ensures eeprom.works && eeprom.reliable ==> outcome.Reset?
    {
      var status := DestroyFirmware();
      if status != SUCCESS {
        return BugCheck(status, 0), |eeprom.history|, |eeprom.history|;
      }
      destroyed := |eeprom.history| - 1;
      status := FlashFirmware(CONTROL_HEADER_SIZE, |image| - CONTROL_HEADER_SIZE);
      BodyPhase(destroyed);
      if status != SUCCESS {
        return BugCheck(status, 1), destroyed, |eeprom.history|;
      }
      verified := |eeprom.history| - 1;
      status := FlashFirmware(0, CONTROL_HEADER_SIZE);
      HeaderPhase(verified);
      if status != SUCCESS {
        return BugCheck(status, 1), destroyed, verified;
      }
      nvmSanity := seq(NVM_SANITY_LENGTH, _ => 0);
      return Reset, destroyed, verified;
    }

    lemma BodyPhase(destroyed: nat)
      requires Valid() && destroyed < |eeprom.history|
      requires |image| <= |eeprom.history[destroyed]|
      requires eeprom.ConfinedSince(destroyed + 1, eeprom.history[destroyed], CONTROL_HEADER_SIZE, |image|)
      ensures !Matches(eeprom.history[destroyed], image, 0, CONTROL_HEADER_SIZE) ==>
                forall k :: destroyed <= k < |eeprom.history| ==> Safe(eeprom.history[k], image)
    {
      if !Matches(eeprom.history[destroyed], image, 0, CONTROL_HEADER_SIZE) {
        forall k | destroyed <= k < |eeprom.history| ensures Safe(eeprom.history[k], image) {
          BodyPhaseIsSafe(image, eeprom.history[destroyed], eeprom.history[k]);
        }
      }
    }

    lemma HeaderPhase(verified: nat)
      requires Valid() && verified < |eeprom.history|
      requires |image| <= |eeprom.history[verified]|
      requires Matches(eeprom.history[verified], image, CONTROL_HEADER_SIZE, |image|)
      requires eeprom.ConfinedSince(verified + 1, eeprom.history[verified], 0, CONTROL_HEADER_SIZE)
      ensures forall k :: verified <= k < |eeprom.history| ==> Safe(eeprom.history[k], image)
    {
      forall k | verified <= k < |eeprom.history| ensures Safe(eeprom.history[k], image) {
        HeaderPhaseIsSafe(image, eeprom.history[verified], eeprom.history[k]);
      }
    }
  }
}
