/** The simulated device in its own form: registers with storage, an index from addresses to
    registers, and the loop that answers a request in place. */
module Simulator {
  import opened EngineState
  import opened Peer

  class SimReg {
    const name: string
    const base: nat
    // the number of bits kept; the mask is 2^width - 1
    const modulus: nat
    const storage: array<Word>

    constructor (name: string, base: nat, modulus: nat, storage: array<Word>)
      ensures this.name == name && this.base == base && this.modulus == modulus && this.storage == storage
    {
      this.name, this.base, this.modulus, this.storage := name, base, modulus, storage;
    }

    predicate Valid() {
      1 <= modulus <= WORD_LIMIT && base + storage.Length <= WORD_LIMIT
    }

    // Simulator::reg_write
    method Write(offset: nat, newval: Word)
      requires Valid() && offset < storage.Length
      modifies storage
      ensures storage[..] == old(storage[..])[offset := newval % modulus]
    {
      storage[offset] := newval % modulus;
    }
  }

  class Simulator {
    var regByName: map<string, SimReg>
    var regByAddr: map<nat, SimReg>

    /** Every indexed address lies in its register, and different registers have different storage. */
    ghost predicate Valid()
      reads this
    {
      && (forall a | a in regByAddr :: regByAddr[a].Valid() && regByAddr[a].base <= a < regByAddr[a].base + regByAddr[a].storage.Length)
      && (forall a, b | a in regByAddr && b in regByAddr && regByAddr[a].storage == regByAddr[b].storage :: regByAddr[a] == regByAddr[b])
    }

    ghost function Stores(): set<array<Word>>
      reads this
    {
      set a | a in regByAddr :: regByAddr[a].storage
    }

    /** What a request sees: one word per indexed address. */
    ghost function Storage(): (mem: Memory)
      requires Valid()
      reads this, Stores()
    {
      map a | a in regByAddr :: Cell(regByAddr[a].modulus, regByAddr[a].storage[a - regByAddr[a].base])
    }

    constructor ()
      ensures Valid() && regByAddr == map[] && regByName == map[]
    {
      regByName, regByAddr := map[], map[];
    }

    /** Indexes the addresses of a new register; where it overlaps another one it takes over. */
    method Add(reg: SimReg) returns (ok: bool)
      requires Valid() && reg.Valid() && reg.storage !in Stores()
      modifies this
      ensures Valid() && ok == (reg.name !in old(regByName))
      ensures !ok ==> regByAddr == old(regByAddr) && regByName == old(regByName)
      ensures ok ==> regByName == old(regByName)[reg.name := reg]
      ensures ok ==> forall a :: a in regByAddr <==> a in old(regByAddr) || reg.base <= a < reg.base + reg.storage.Length
      ensures ok ==> forall a | a in regByAddr ::
        regByAddr[a] == if reg.base <= a < reg.base + reg.storage.Length then reg else old(regByAddr)[a]
    {
      if reg.name in regByName {
        return false;
      }
      regByName := regByName[reg.name := reg];
      var addr := reg.base;
      while addr < reg.base + reg.storage.Length
        invariant reg.base <= addr <= reg.base + reg.storage.Length
        invariant forall a :: a in regByAddr <==> a in old(regByAddr) || reg.base <= a < addr
        invariant forall a | a in regByAddr :: regByAddr[a] == if reg.base <= a < addr then reg else old(regByAddr)[a]
        modifies this`regByAddr
      {
        regByAddr := regByAddr[addr := reg];
        addr := addr + 1;
      }
      assert forall a | a in old(regByAddr) :: old(regByAddr)[a].storage in old(Stores());
      return true;
    }

    /** A write through the index changes the word at that address and no other. */
    method WriteAt(addr: nat, data: Word)
      requires Valid() && addr in regByAddr
      modifies regByAddr[addr].storage
      ensures Valid() && Storage() == old(Storage())[addr := Stored(old(Storage())[addr], data)]
    {
      var reg := regByAddr[addr];
      ModTwice(data, reg.modulus);
      reg.Write(addr - reg.base, data % reg.modulus);
    }

    /** Does the command address the magic register that is never answered? */
    static predicate IsGhost(index: map<nat, SimReg>, cmd: Word) {
      cmd % ADDR_LIMIT in index && index[cmd % ADDR_LIMIT].name == "ghost"
    }

    /** Does an operation of the request from word x on address it? */
    static ghost predicate Ghosted(index: map<nat, SimReg>, words: seq<Word>, x: nat)
      decreases |words| - x
    {
      x + 2 <= |words| && (IsGhost(index, words[x]) || Ghosted(index, words, x + 2))
    }

    /** Answers the pair of words at x in place. */
    method Serve(buf: array<Word>, x: nat) returns (ghosted: bool)
      requires Valid() && x + 1 < buf.Length && buf !in Stores()
      modifies buf, Stores()
      ensures Valid() && regByAddr == old(regByAddr) && ghosted == IsGhost(regByAddr, old(buf[x]))
      ensures var p := Peer.Serve(old(Storage()), old(buf[..]), x);
        Storage() == p.mem && buf[..] == p.words
      ensures forall y | 0 <= y < buf.Length && y != x + 1 :: buf[y] == old(buf[y])
    {
      var cmd, data := buf[x], buf[x + 1];
      var addr := cmd % ADDR_LIMIT;
      ghosted := false;
      if addr !in regByAddr {
        if IsRead(cmd) {
          data := 0xabad_face;
        }
      } else {
        var reg := regByAddr[addr];
        assert reg.storage in Stores();
        ghosted := reg.name == "ghost";
        if IsRead(cmd) {
          data := reg.storage[addr - reg.base];
        } else {
          WriteAt(addr, data);
        }
      }
      ghost var mem := Storage();
      buf[x + 1] := data;
      assert Storage() == mem;
    }

    /** The loop of exec over the operations of one request; it replies exactly if the request has
        32 bytes or more and none of its whole operations addresses the register named "ghost". */
    method Exec(buf: array<Word>) returns (reply: bool)
      requires Valid() && buf !in Stores()
      modifies buf, Stores()
      ensures Valid() && regByAddr == old(regByAddr)
      ensures reply <==> buf.Length >= 8 && !Ghosted(regByAddr, old(buf[..]), 2)
      ensures buf.Length < 8 ==> !reply && Storage() == old(Storage()) && buf[..] == old(buf[..])
      ensures buf.Length >= 8 ==>
        var p := Peer.Exec(old(Storage()), old(buf[..]), 2);
        Storage() == p.mem && buf[..] == p.words
    {
      if buf.Length < 8 {
        return false;
      }
      hide Peer.Exec, Peer.Serve, Valid, Storage, IsGhost, ValidMemory;
      ghost var was := buf[..];
      reply := true;
      var i := 2;
      while i + 2 <= buf.Length
        invariant 2 <= i && Valid() && regByAddr == old(regByAddr) && buf !in Stores()
        invariant forall y | i <= y < buf.Length :: buf[y] == was[y]
        invariant Ghosted(regByAddr, was, 2) <==> !reply || Ghosted(regByAddr, was, i)
        invariant Peer.Exec(Storage(), buf[..], i) == Peer.Exec(old(Storage()), was, 2)
      {
        ExecStep(Storage(), buf[..], i);
        var ghosted := Serve(buf, i);
        if ghosted {
          reply := false;
        }
        i := i + 2;
      }
      ExecEnd(Storage(), buf[..], i);
    }
  }

  lemma ModTwice(n: nat, m: nat)
    requires m > 0
    ensures n % m % m == n % m
  {
  }
}
