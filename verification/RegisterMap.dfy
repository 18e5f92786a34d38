/** What connecting does to the register table: which entries of the device's map become registers. */
module RegisterMap {
  import opened EngineState

  /** No register has the name of entry x, and no entry before it. */
  predicate IsNew(regs: seq<Reg>, infos: seq<Info>, x: nat)
    requires x < |infos|
  {
    && (forall k | 0 <= k < |regs| :: regs[k].info.name != infos[x].name)
    && (forall w | 0 <= w < x :: infos[w].name != infos[x].name)
  }

  function Shifted(pos: seq<nat>): (p: seq<nat>)
    ensures |p| == |pos| && forall y | 0 <= y < |p| :: p[y] == pos[y] + 1
  {
    seq(|pos|, y requires 0 <= y < |pos| => pos[y] + 1)
  }

  /** These are the places of the new entries, in order. */
  ghost predicate NewPlaces(regs: seq<Reg>, infos: seq<Info>, pos: seq<nat>) {
    && (forall y, z | 0 <= y < z < |pos| :: pos[y] < pos[z])
    && (forall y | 0 <= y < |pos| :: pos[y] < |infos|)
    && (forall x | 0 <= x < |infos| :: x in pos <==> IsNew(regs, infos, x))
  }

  /** THE REGISTER MAP THEOREM. Connecting keeps the registers there are and adds, in the order of
      the map and each idle with empty caches, one for every entry whose name is new. */
  lemma {:induction false} MapAdded(regs: seq<Reg>, infos: seq<Info>) returns (pos: seq<nat>)
    requires ValidMap(Registers(infos))
    ensures NewPlaces(regs, infos, pos)
    ensures var r := AddRegs(regs, infos);
      regs <= r && |r| == |regs| + |pos| && forall y | 0 <= y < |pos| :: pos[y] < |infos| && r[|regs| + y] == FreshReg(infos[pos[y]])
    decreases |infos|
  {
    hide NewPlaces, FreshReg;
    if infos == [] {
      pos := [];
      NoPlaces(regs);
    } else {
      assert ValidInfo(infos[0]) && !infos[0].bootstrap;
      var tail := infos[1..];
      assert ValidMap(Registers(tail));
      var regs' := if HasName(regs, infos[0].name) then regs else regs + [FreshReg(infos[0])];
      var rest := MapAdded(regs', tail);
      pos := if HasName(regs, infos[0].name) then Shifted(rest) else [0] + Shifted(rest);
      MorePlaces(regs, regs', infos, rest, pos);
      PlacesIn(regs', tail, rest);
      MoreRegs(regs, regs', infos, AddRegs(regs', tail), rest, pos);
    }
  }

  lemma NoPlaces(regs: seq<Reg>)
    ensures NewPlaces(regs, [], [])
  {
  }

  lemma PlacesIn(regs: seq<Reg>, infos: seq<Info>, pos: seq<nat>)
    requires NewPlaces(regs, infos, pos)
    ensures forall y | 0 <= y < |pos| :: pos[y] < |infos|
  {
  }

  lemma MoreRegs(regs: seq<Reg>, regs': seq<Reg>, infos: seq<Info>, r: seq<Reg>, rest: seq<nat>, pos: seq<nat>)
    requires infos != [] && forall y | 0 <= y < |rest| :: rest[y] < |infos| - 1
    requires (regs' == regs && pos == Shifted(rest)) || (regs' == regs + [FreshReg(infos[0])] && pos == [0] + Shifted(rest))
    requires regs' <= r && |r| == |regs'| + |rest| && forall y | 0 <= y < |rest| :: r[|regs'| + y] == FreshReg(infos[1..][rest[y]])
    ensures regs <= r && |r| == |regs| + |pos|
    ensures forall y | 0 <= y < |pos| :: pos[y] < |infos| && r[|regs| + y] == FreshReg(infos[pos[y]])
  {
    hide FreshReg;
    forall y | 0 <= y < |pos| ensures pos[y] < |infos| && r[|regs| + y] == FreshReg(infos[pos[y]]) {
      if regs' == regs {
        assert r[|regs'| + y] == FreshReg(infos[1..][rest[y]]);
      } else if y == 0 {
        assert r[|regs|] == regs'[|regs|];
      } else {
        assert r[|regs'| + (y - 1)] == FreshReg(infos[1..][rest[y - 1]]);
      }
    }
  }

  /** A new register: as its entry says, idle, with nothing queued and zeroed caches. */
  lemma FreshIs(f: Info)
    ensures var r := FreshReg(f);
      && r.info == f && r.state == Invalid && !r.readQueued && !r.writeQueued
      && r.recInprog == r.recWrite == r.recRead == [] && |r.memRx| == |r.memTx| == |r.received| == f.size
      && forall o | 0 <= o < f.size :: r.memRx[o] == 0 && r.memTx[o] == 0
  {
  }

  lemma MorePlaces(regs: seq<Reg>, regs': seq<Reg>, infos: seq<Info>, rest: seq<nat>, pos: seq<nat>)
    requires infos != [] && NewPlaces(regs', infos[1..], rest)
    requires if HasName(regs, infos[0].name) then regs' == regs && pos == Shifted(rest)
      else regs' == regs + [FreshReg(infos[0])] && pos == [0] + Shifted(rest)
    ensures NewPlaces(regs, infos, pos)
  {
    assert 0 in pos <==> IsNew(regs, infos, 0) by {
      assert forall y | 0 <= y < |rest| :: Shifted(rest)[y] > 0;
    }
    forall x: nat | 0 < x < |infos| ensures x in pos <==> IsNew(regs, infos, x) {
      NewShift(regs, regs', infos, x);
      InShifted(rest, x - 1);
    }
  }

  lemma InShifted(rest: seq<nat>, x: nat)
    ensures x + 1 in Shifted(rest) <==> x in rest
  {
    if x in rest {
      var y :| 0 <= y < |rest| && rest[y] == x;
      assert Shifted(rest)[y] == x + 1;
    }
  }

  lemma NewShift(regs: seq<Reg>, regs': seq<Reg>, infos: seq<Info>, x: nat)
    requires 0 < x < |infos|
    requires if HasName(regs, infos[0].name) then regs' == regs else regs' == regs + [FreshReg(infos[0])]
    ensures IsNew(regs, infos, x) <==> IsNew(regs', infos[1..], x - 1)
  {
    var tail := infos[1..];
    assert tail[x - 1] == infos[x];
    if IsNew(regs, infos, x) {
      forall w | 0 <= w < x - 1 ensures tail[w].name != tail[x - 1].name {
        assert tail[w] == infos[w + 1];
      }
      assert infos[0].name != infos[x].name;
    }
    if IsNew(regs', tail, x - 1) {
      forall k | 0 <= k < |regs| ensures regs[k].info.name != infos[x].name {
        assert regs'[k] == regs[k];
      }
      forall w | 0 <= w < x ensures infos[w].name != infos[x].name {
        if w > 0 {
          assert tail[w - 1] == infos[w];
        } else if HasName(regs, infos[0].name) {
          var k :| 0 <= k < |regs| && regs[k].info.name == infos[0].name;
        } else {
          assert regs'[|regs|].info == infos[0];
        }
      }
    }
  }

  /** So every name of the map is a name of the table. */
  lemma {:induction false} MapNamed(regs: seq<Reg>, infos: seq<Info>, x: nat)
    requires ValidMap(Registers(infos)) && x < |infos|
    ensures exists k :: 0 <= k < |AddRegs(regs, infos)| && AddRegs(regs, infos)[k].info.name == infos[x].name
    decreases x
  {
    var r := AddRegs(regs, infos);
    var pos := MapAdded(regs, infos);
    if IsNew(regs, infos, x) {
      var y :| 0 <= y < |pos| && pos[y] == x;
      assert r[|regs| + y].info == infos[x];
    } else if k :| 0 <= k < |regs| && regs[k].info.name == infos[x].name {
      assert r[k] == regs[k];
    } else {
      var w :| 0 <= w < x && infos[w].name == infos[x].name;
      MapNamed(regs, infos, w);
    }
  }
}
