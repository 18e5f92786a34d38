/** The device at the other end as the simulator models it: one storage word per address, and
    the loop that answers a request in place. */
module Peer {
  import opened EngineState

  /** A storage word; modulus is two to the width of its register. */
  datatype Cell = Cell(modulus: nat, value: Word)

  type Memory = map<nat, Cell>

  ghost predicate ValidMemory(mem: Memory) {
    forall a | a in mem :: 1 <= mem[a].modulus <= WORD_LIMIT
  }

  datatype Answer = Answer(mem: Memory, words: seq<Word>)

  predicate IsWrite(cmd: Word) {
    !IsRead(cmd)
  }

  // Simulator::reg_write, with the mask applied
  function Stored(c: Cell, data: Word): (c': Cell)
    requires 1 <= c.modulus <= WORD_LIMIT
  {
    c.(value := data % c.modulus)
  }

  /** The pair of words at x: a read is answered from storage, a write is echoed. */
  function Serve(mem: Memory, words: seq<Word>, x: nat): (r: Answer)
    requires ValidMemory(mem) && x + 1 < |words|
    ensures ValidMemory(r.mem) && |r.words| == |words|
  {
    var a := words[x] % ADDR_LIMIT;
    if a !in mem then Answer(mem, if IsRead(words[x]) then words[x + 1 := 0xabad_face] else words)
    else if IsRead(words[x]) then Answer(mem, words[x + 1 := mem[a].value])
    else Answer(mem[a := Stored(mem[a], words[x + 1])], words)
  }

  /** The request loop of Simulator::exec from word x on. */
  function Exec(mem: Memory, words: seq<Word>, x: nat): (r: Answer)
    requires ValidMemory(mem)
    ensures ValidMemory(r.mem) && |r.words| == |words|
    decreases |words| - x
  {
    if x + 1 >= |words| then Answer(mem, words)
    else
      var p := Serve(mem, words, x);
      Exec(p.mem, p.words, x + 2)
  }

  lemma ExecStep(mem: Memory, words: seq<Word>, x: nat)
    requires ValidMemory(mem) && x + 1 < |words|
    ensures var p := Serve(mem, words, x);
      Exec(mem, words, x) == Exec(p.mem, p.words, x + 2)
  {
  }

  lemma ExecEnd(mem: Memory, words: seq<Word>, x: nat)
    requires ValidMemory(mem) && x + 1 >= |words|
    ensures Exec(mem, words, x) == Answer(mem, words)
  {
  }

  /** The device keeps its addresses and their widths. */
  ghost predicate SameCells(mem: Memory, mem': Memory) {
    mem'.Keys == mem.Keys && forall a | a in mem :: mem'[a].modulus == mem[a].modulus
  }

  lemma {:induction false} ExecCells(mem: Memory, words: seq<Word>, x: nat)
    requires ValidMemory(mem)
    ensures SameCells(mem, Exec(mem, words, x).mem)
    decreases |words| - x
  {
    if x + 1 < |words| {
      var p := Serve(mem, words, x);
      ExecCells(p.mem, p.words, x + 2);
    }
  }

  /** Only the answer words from x on change; the commands are echoed. */
  lemma {:induction false} ExecEchoes(mem: Memory, words: seq<Word>, x: nat, y: nat)
    requires ValidMemory(mem) && y < |words| && (y < x || (y - x) % 2 == 0)
    ensures Exec(mem, words, x).words[y] == words[y]
    decreases |words| - x
  {
    if x + 1 < |words| {
      var p := Serve(mem, words, x);
      assert p.words[y] == words[y];
      ExecEchoes(p.mem, p.words, x + 2, y);
    }
  }

  /** Does the pair at y write address a? */
  predicate Writes(words: seq<Word>, y: nat, a: nat) {
    y + 1 < |words| && IsWrite(words[y]) && words[y] % ADDR_LIMIT == a
  }

  lemma ServeWrites(mem: Memory, words: seq<Word>, x: nat, y: nat, a: nat)
    requires ValidMemory(mem) && x + 1 < |words| && x <= y && (y - x) % 2 == 0
    ensures Writes(Serve(mem, words, x).words, y, a) <==> Writes(words, y, a)
  {
  }

  /** An address no remaining pair writes keeps its word. */
  lemma {:induction false} ExecKeeps(mem: Memory, words: seq<Word>, x: nat, a: nat)
    requires ValidMemory(mem) && a in mem
    requires forall y | x <= y && (y - x) % 2 == 0 :: !Writes(words, y, a)
    ensures a in Exec(mem, words, x).mem && Exec(mem, words, x).mem[a] == mem[a]
    decreases |words| - x
  {
    if x + 1 < |words| {
      var p := Serve(mem, words, x);
      assert !Writes(words, x, a);
      forall y | x + 2 <= y && (y - x - 2) % 2 == 0 ensures !Writes(p.words, y, a) {
        ServeWrites(mem, words, x, y, a);
        assert (y - x) % 2 == 0;
      }
      ExecKeeps(p.mem, p.words, x + 2, a);
    }
  }

  /** An address exactly one pair writes holds that pair's data afterwards, cut to the width. */
  lemma {:induction false} ExecStores(mem: Memory, words: seq<Word>, x: nat, y: nat, a: nat)
    requires ValidMemory(mem) && a in mem && x <= y && (y - x) % 2 == 0 && Writes(words, y, a)
    requires forall z | x <= z && (z - x) % 2 == 0 && Writes(words, z, a) :: z == y
    ensures a in Exec(mem, words, x).mem && Exec(mem, words, x).mem[a] == Stored(mem[a], words[y + 1])
    decreases |words| - x
  {
    var p := Serve(mem, words, x);
    forall z | x + 2 <= z && (z - x - 2) % 2 == 0 ensures (Writes(p.words, z, a) <==> Writes(words, z, a)) && (z - x) % 2 == 0 {
      ServeWrites(mem, words, x, z, a);
    }
    if x == y {
      ExecKeeps(p.mem, p.words, x + 2, a);
    } else {
      assert !Writes(words, x, a);
      assert p.words[y] == words[y] && p.words[y + 1] == words[y + 1];
      ExecStores(p.mem, p.words, x + 2, y, a);
    }
  }

  /** A read of an address the request does not write returns the word the device holds. */
  lemma {:induction false} ExecReads(mem: Memory, words: seq<Word>, x: nat, y: nat)
    requires ValidMemory(mem) && x <= y && (y - x) % 2 == 0 && y + 1 < |words| && IsRead(words[y])
    requires var a := words[y] % ADDR_LIMIT;
      a in mem && forall z | x <= z && (z - x) % 2 == 0 :: !Writes(words, z, a)
    ensures Exec(mem, words, x).words[y + 1] == mem[words[y] % ADDR_LIMIT].value
    decreases |words| - x
  {
    var a := words[y] % ADDR_LIMIT;
    var p := Serve(mem, words, x);
    assert !Writes(words, x, a);
    forall z | x + 2 <= z && (z - x - 2) % 2 == 0 ensures !Writes(p.words, z, a) {
      ServeWrites(mem, words, x, z, a);
      assert (z - x) % 2 == 0;
    }
    if x == y {
      assert p.words[y + 1] == mem[a].value;
      ExecEchoes(p.mem, p.words, x + 2, y + 1);
    } else {
      assert p.words[y] == words[y];
      ExecReads(p.mem, p.words, x + 2, y);
    }
  }

  /* ---- the device between two pairs ---- */

  /** The memory after each pair from x on. */
  function Steps(mem: Memory, words: seq<Word>, x: nat): (s: seq<Memory>)
    requires ValidMemory(mem)
    decreases |words| - x
  {
    if x + 1 >= |words| then []
    else
      var p := Serve(mem, words, x);
      [p.mem] + Steps(p.mem, p.words, x + 2)
  }

  /** They have the same cells, and the last one is what the request leaves. */
  lemma {:induction false} StepsCells(mem: Memory, words: seq<Word>, x: nat)
    requires ValidMemory(mem)
    ensures forall t | 0 <= t < |Steps(mem, words, x)| :: SameCells(mem, Steps(mem, words, x)[t])
    ensures ([mem] + Steps(mem, words, x))[|Steps(mem, words, x)|] == Exec(mem, words, x).mem
    decreases |words| - x
  {
    if x + 1 < |words| {
      var p := Serve(mem, words, x);
      assert SameCells(mem, p.mem);
      hide Serve;
      var rest := Steps(p.mem, p.words, x + 2);
      StepsCells(p.mem, p.words, x + 2);
      assert Steps(mem, words, x) == [p.mem] + rest;
      assert ([mem] + ([p.mem] + rest))[|rest| + 1] == ([p.mem] + rest)[|rest|];
      forall t | 0 <= t < |rest| + 1 ensures SameCells(mem, ([p.mem] + rest)[t]) {
        if t > 0 {
          assert ([p.mem] + rest)[t] == rest[t - 1];
        }
      }
    }
  }

  /** Whatever else the request writes, a read returns the word the device holds just then. */
  lemma {:induction false} ExecReadsThen(mem: Memory, words: seq<Word>, x: nat, y: nat)
    requires ValidMemory(mem) && x <= y && (y - x) % 2 == 0 && y + 1 < |words| && IsRead(words[y]) && words[y] % ADDR_LIMIT in mem
    ensures var a := words[y] % ADDR_LIMIT;
      var n := (y - x) / 2;
      var all := [mem] + Steps(mem, words, x);
      n < |all| && a in all[n] && Exec(mem, words, x).words[y + 1] == all[n][a].value
    decreases |words| - x
  {
    var a := words[y] % ADDR_LIMIT;
    var p := Serve(mem, words, x);
    if x == y {
      assert p.words[y + 1] == mem[a].value;
      ExecEchoes(p.mem, p.words, x + 2, y + 1);
    } else {
      assert p.words[y] == words[y];
      ExecReadsThen(p.mem, p.words, x + 2, y);
      var rest := Steps(p.mem, p.words, x + 2);
      var n := (y - x) / 2;
      assert (y - (x + 2)) / 2 == n - 1;
      assert ([mem] + ([p.mem] + rest))[n] == ([p.mem] + rest)[n - 1];
    }
  }
}
