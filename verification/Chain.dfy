/** The generator of record chains: the links of a signal group are built backwards, so that
    processing starts at a trigger and ends by arming it again. */
module Chain {

  /** A register that is read back, with the signals and the I/Q pairs taken from it. */
  datatype Readback = Readback(name: string, signals: seq<string>, pairs: seq<string>)

  datatype Group = Group(name: string, readbacks: seq<Readback>)

  /** A record of the output: a read, or a fanout with its links. */
  datatype Entry = Read(name: string, flnk: string) | Fanout(name: string, links: seq<string>, flnk: string)

  const FANOUT := 6

  function Decimal(n: nat): string {
    if n < 10 then [('0' as int + n) as char] else Decimal(n / 10) + [('0' as int + n % 10) as char]
  }

  function RearmName(g: string): string {
    "$(PREF)" + g + "REARM"
  }

  function FanoutName(g: string, idx: nat): string {
    "$(PREF)" + g + "FO" + Decimal(idx) + "_"
  }

  /** The record that a base name's group of records is processed through. */
  function EntryName(base: string): string {
    "$(PREF)" + base + "E_"
  }

  function Names(bases: seq<string>): (n: seq<string>)
    ensures |n| == |bases| && forall i | 0 <= i < |bases| :: n[i] == EntryName(bases[i])
  {
    seq(|bases|, i requires 0 <= i < |bases| => EntryName(bases[i]))
  }

  /** Every signal and pair in the order of declaration. */
  function Leaves(rs: seq<Readback>): seq<string> {
    if rs == [] then [] else Leaves(rs[..|rs| - 1]) + Names(rs[|rs| - 1].signals) + Names(rs[|rs| - 1].pairs)
  }

  /* ---- batches ---- */

  function Batches(items: seq<string>, cnt: nat): (b: seq<seq<string>>)
    requires cnt > 0
    decreases |items|
  {
    if items == [] then [] else if |items| <= cnt then [items] else [items[..cnt]] + Batches(items[cnt..], cnt)
  }

  function Joined(b: seq<seq<string>>): seq<string> {
    if b == [] then [] else b[0] + Joined(b[1..])
  }

  /** Batching cuts, and no more. */
  lemma {:induction false} BatchesJoin(items: seq<string>, cnt: nat)
    requires cnt > 0
    ensures Joined(Batches(items, cnt)) == items
    ensures forall i | 0 <= i < |Batches(items, cnt)| :: 1 <= |Batches(items, cnt)[i]| <= cnt
    decreases |items|
  {
    if items != [] && |items| > cnt {
      BatchesJoin(items[cnt..], cnt);
      assert items == items[..cnt] + items[cnt..];
    } else if items != [] {
      assert Joined([items]) == items + Joined([]);
    }
  }

  // batchby
  method BatchBy(items: seq<string>, cnt: nat) returns (out: seq<seq<string>>)
    requires cnt > 0
    ensures out == Batches(items, cnt)
  {
    hide Batches;
    out := [];
    var grp: seq<string> := [];
    ghost var rest := items;
    var i := 0;
    while i < |items|
      invariant 0 <= i <= |items| && |grp| < cnt && rest == grp + items[i..]
      invariant Batches(items, cnt) == out + Batches(rest, cnt)
    {
      assert items[i..] == [items[i]] + items[i + 1..];
      grp := grp + [items[i]];
      i := i + 1;
      if |grp| == cnt {
        BatchFull(rest, cnt);
        assert rest[..cnt] == grp && rest[cnt..] == items[i..];
        assert out + ([grp] + Batches(items[i..], cnt)) == out + [grp] + Batches(items[i..], cnt);
        rest := items[i..];
        out := out + [grp];
        grp := [];
        assert rest == grp + items[i..];
      }
    }
    assert rest == grp;
    BatchLast(grp, cnt);
    if |grp| > 0 {
      out := out + [grp];
    }
  }

  lemma BatchLast(grp: seq<string>, cnt: nat)
    requires |grp| < cnt
    ensures Batches(grp, cnt) == if grp == [] then [] else [grp]
  {
  }

  lemma BatchFull(items: seq<string>, cnt: nat)
    requires 0 < cnt <= |items|
    ensures Batches(items, cnt) == [items[..cnt]] + Batches(items[cnt..], cnt)
  {
    if |items| == cnt {
      assert items[..cnt] == items && items[cnt..] == [];
    }
  }

  /* ---- the generator ---- */

  /** Fanouts for the batches, the last one first, linked to what comes after them. */
  function Fanouts(g: string, b: seq<seq<string>>, idx: nat, next: string): (e: seq<Entry>)
    ensures |e| == |b|
    decreases |b|
  {
    if b == [] then []
    else
      var name := FanoutName(g, idx);
      [Fanout(name, b[|b| - 1], next)] + Fanouts(g, b[..|b| - 1], idx + 1, name)
  }

  /** Reads, each linked to the one before it and the first to what comes after them. */
  function Reads(rs: seq<Readback>, next: string): (e: seq<Entry>)
    ensures |e| == |rs|
  {
    if rs == [] then [] else [Read(EntryName(rs[0].name), next)] + Reads(rs[1..], EntryName(rs[0].name))
  }

  /** Where a chain starts. */
  function Head(e: seq<Entry>, next: string): string {
    if e == [] then next else e[|e| - 1].name
  }

  function Output(g: Group): seq<Entry> {
    var f := Fanouts(g.name, Batches(Leaves(g.readbacks), FANOUT), 1, RearmName(g.name));
    f + Reads(g.readbacks, Head(f, RearmName(g.name)))
  }

  class Main {
    // the template instances for fanouts and reads, in the order of emission, and the last NEXT
    var out: seq<Entry>
    var next: string

    constructor ()
      ensures out == []
    {
      out, next := [], "";
    }

    // signal_group, as far as links are concerned
    method SignalGroup(g: Group)
      modifies this
      ensures out == old(out) + Output(g) && next == Head(Output(g), RearmName(g.name))
    {
      hide Fanouts, Reads, Batches, Leaves, RearmName, EntryName;
      next := RearmName(g.name);
      var fanout2 := Gather(g.readbacks);
      var batches := BatchBy(fanout2, FANOUT);
      EmitFanouts(g.name, batches);
      LastHead(Fanouts(g.name, batches, 1, RearmName(g.name)), g.readbacks, RearmName(g.name));
      EmitReads(g.readbacks);
    }

    /** The loop over readbacks that collects what is to be processed. */
    method Gather(rs: seq<Readback>) returns (fanout2: seq<string>)
      ensures fanout2 == Leaves(rs)
    {
      fanout2 := [];
      var r := 0;
      while r < |rs|
        invariant 0 <= r <= |rs| && fanout2 == Leaves(rs[..r])
      {
        assert rs[..r + 1][..r] == rs[..r];
        fanout2 := fanout2 + Names(rs[r].signals);
        fanout2 := fanout2 + Names(rs[r].pairs);
        r := r + 1;
      }
      assert rs[..r] == rs;
    }

    /** The loop over the reversed batches. */
    method EmitFanouts(g: string, batches: seq<seq<string>>)
      modifies this
      ensures out == old(out) + Fanouts(g, batches, 1, old(next))
      ensures next == Head(Fanouts(g, batches, 1, old(next)), old(next))
    {
      var idx, n := 1, |batches|;
      ghost var all := Fanouts(g, batches, 1, next);
      ghost var done: seq<Entry> := [];
      assert batches[..n] == batches;
      while n > 0
        invariant 0 <= n <= |batches| && idx >= 1
        invariant all == done + Fanouts(g, batches[..n], idx, next) && out == old(out) + done && next == Head(done, old(next))
      {
        assert batches[..n][..n - 1] == batches[..n - 1];
        var ent := Fanout(FanoutName(g, idx), batches[n - 1], next);
        next := ent.name;
        out := out + [ent];
        done := done + [ent];
        idx, n := idx + 1, n - 1;
      }
      assert all == done;
    }

    /** The loop that emits the reads. */
    method EmitReads(rs: seq<Readback>)
      modifies this
      ensures out == old(out) + Reads(rs, old(next))
      ensures next == (if rs == [] then old(next) else EntryName(rs[|rs| - 1].name))
    {
      hide EntryName;
      var r := 0;
      ghost var all := Reads(rs, next);
      ghost var done: seq<Entry> := [];
      assert rs[0..] == rs;
      while r < |rs|
        invariant 0 <= r <= |rs|
        invariant all == done + Reads(rs[r..], next) && out == old(out) + done
        invariant next == if r == 0 then old(next) else EntryName(rs[r - 1].name)
      {
        assert rs[r..][1..] == rs[r + 1..];
        var ent := Read(EntryName(rs[r].name), next);
        next := ent.name;
        out := out + [ent];
        done := done + [ent];
        r := r + 1;
      }
      assert all == done;
    }
  }

  /** The last read, if there is one, is where the chain starts. */
  lemma {:induction false} LastHead(f: seq<Entry>, rs: seq<Readback>, rearm: string)
    ensures Head(f + Reads(rs, Head(f, rearm)), rearm) == if rs == [] then Head(f, rearm) else EntryName(rs[|rs| - 1].name)
  {
    ReadNames(rs, Head(f, rearm));
    assert rs == [] ==> f + Reads(rs, Head(f, rearm)) == f;
  }

  lemma {:induction false} ReadNames(rs: seq<Readback>, next: string)
    ensures forall i | 0 <= i < |rs| :: Reads(rs, next)[i].name == EntryName(rs[i].name)
  {
    if rs != [] {
      ReadNames(rs[1..], EntryName(rs[0].name));
    }
  }

  /* ---- processing ---- */

  function Find(db: seq<Entry>, name: string): (e: int)
    ensures -1 <= e < |db| && (e >= 0 ==> db[e].name == name) && (e < 0 ==> forall i | 0 <= i < |db| :: db[i].name != name)
  {
    if db == [] then -1 else if db[|db| - 1].name == name then |db| - 1 else Find(db[..|db| - 1], name)
  }

  /** What processing an entry processes, its forward link apart. */
  function Shown(e: Entry): seq<string> {
    if e.Read? then [e.name] else e.links
  }

  /** The records processed from the given one on, until the chain is armed again; None if a link
      leads nowhere or there are more than so many entries. */
  function Walk(db: seq<Entry>, name: string, rearm: string, fuel: nat): Option<seq<string>>
    decreases fuel
  {
    if name == rearm then Some([rearm])
    else if fuel == 0 || Find(db, name) < 0 then None
    else
      var e := db[Find(db, name)];
      var rest := Walk(db, e.flnk, rearm, fuel - 1);
      if rest.None? then None else Some(Shown(e) + rest.value)
  }

  datatype Option<T> = None | Some(value: T)

  /** Every entry leads to the one emitted before it, the first to what comes after. */
  ghost predicate Linked(e: seq<Entry>, next: string) {
    forall i | 0 <= i < |e| :: LinkAt(e, next, i)
  }

  predicate LinkAt(e: seq<Entry>, next: string, i: int) {
    0 <= i < |e| && e[i].flnk == if i == 0 then next else e[i - 1].name
  }

  ghost predicate Distinct(e: seq<Entry>, rearm: string) {
    && (forall i, j | 0 <= i < j < |e| :: e[i].name != e[j].name)
    && (forall i | 0 <= i < |e| :: e[i].name != rearm)
  }

  /** The last entry first. */
  function Visits(e: seq<Entry>): seq<string> {
    if e == [] then [] else Shown(e[|e| - 1]) + Visits(e[..|e| - 1])
  }

  lemma {:induction false} WalkLinked(e: seq<Entry>, n: nat, rearm: string, fuel: nat)
    requires Linked(e, rearm) && Distinct(e, rearm) && n <= |e| && fuel >= n
    ensures Walk(e, Head(e[..n], rearm), rearm, fuel) == Some(Visits(e[..n]) + [rearm])
  {
    hide Walk, Visits, Shown, Distinct;
    VisitsStep(e, n);
    if n == 0 {
      WalkDone(e, rearm, fuel);
    } else {
      var x := e[n - 1];
      assert LinkAt(e, rearm, n - 1);
      assert x.flnk == Head(e[..n - 1], rearm);
      WalkStep(e, n - 1, rearm, fuel);
      WalkLinked(e, n - 1, rearm, fuel - 1);
      assert Shown(x) + (Visits(e[..n - 1]) + [rearm]) == Shown(x) + Visits(e[..n - 1]) + [rearm];
    }
  }

  lemma VisitsStep(e: seq<Entry>, n: nat)
    requires n <= |e|
    ensures Visits(e[..n]) == if n == 0 then [] else Shown(e[n - 1]) + Visits(e[..n - 1])
  {
    if n > 0 {
      assert e[..n][..n - 1] == e[..n - 1];
    }
  }

  lemma WalkDone(db: seq<Entry>, rearm: string, fuel: nat)
    ensures Walk(db, rearm, rearm, fuel) == Some([] + [rearm])
  {
    assert [] + [rearm] == [rearm];
  }

  lemma WalkStep(db: seq<Entry>, k: nat, rearm: string, fuel: nat)
    requires Distinct(db, rearm) && k < |db| && fuel > 0
    ensures var rest := Walk(db, db[k].flnk, rearm, fuel - 1);
      Walk(db, db[k].name, rearm, fuel) == if rest.None? then None else Some(Shown(db[k]) + rest.value)
  {
    assert Find(db, db[k].name) == k;
  }

  lemma NothingLinked(next: string)
    ensures Linked([], next)
  {
  }

  lemma OneLinked(e: Entry)
    ensures Linked([e], e.flnk)
  {
  }

  lemma {:induction false} FanoutsLinked(g: string, b: seq<seq<string>>, idx: nat, next: string)
    ensures Linked(Fanouts(g, b, idx, next), next)
    ensures Visits(Fanouts(g, b, idx, next)) == Joined(b)
    decreases |b|
  {
    hide FanoutName, Linked;
    if b == [] {
      NothingLinked(next);
    } else {
      var c := b[..|b| - 1];
      var rest := Fanouts(g, c, idx + 1, FanoutName(g, idx));
      var first := Fanout(FanoutName(g, idx), b[|b| - 1], next);
      FanoutsLinked(g, c, idx + 1, FanoutName(g, idx));
      assert Fanouts(g, b, idx, next) == [first] + rest;
      OneLinked(first);
      LinkedConcat([first], rest, next);
      VisitsConcat([first], rest);
      JoinedConcat(c, [b[|b| - 1]]);
      assert b == c + [b[|b| - 1]];
      assert Visits([first]) == b[|b| - 1] + Visits([]);
      assert Joined([b[|b| - 1]]) == b[|b| - 1] + Joined([]);
    }
  }

  lemma {:induction false} VisitsConcat(a: seq<Entry>, b: seq<Entry>)
    ensures Visits(a + b) == Visits(b) + Visits(a)
  {
    if b == [] {
      assert a + b == a;
    } else {
      assert (a + b)[..|a + b| - 1] == a + b[..|b| - 1];
      VisitsConcat(a, b[..|b| - 1]);
    }
  }

  lemma {:induction false} JoinedConcat(a: seq<seq<string>>, b: seq<seq<string>>)
    ensures Joined(a + b) == Joined(a) + Joined(b)
  {
    if a == [] {
      assert a + b == b;
    } else {
      assert (a + b)[1..] == a[1..] + b;
      JoinedConcat(a[1..], b);
    }
  }

  /** The read registers, last one first. */
  function Reversed(rs: seq<Readback>): seq<string> {
    if rs == [] then [] else Reversed(rs[1..]) + [EntryName(rs[0].name)]
  }

  lemma {:induction false} ReadsLinked(rs: seq<Readback>, next: string)
    ensures Linked(Reads(rs, next), next)
    ensures Visits(Reads(rs, next)) == Reversed(rs)
  {
    hide EntryName, Linked;
    if rs == [] {
      NothingLinked(next);
    } else {
      var first := Read(EntryName(rs[0].name), next);
      var rest := Reads(rs[1..], first.name);
      ReadsLinked(rs[1..], first.name);
      assert Reads(rs, next) == [first] + rest;
      OneLinked(first);
      LinkedConcat([first], rest, next);
      VisitsConcat([first], rest);
      assert Visits([first]) == [first.name] + Visits([]);
    }
  }

  /** THE CHAIN THEOREM. With distinct record names, processing from the trigger's NEXT reads back
      every register, last one first, then processes every signal and pair once, in the order of
      declaration, through fanouts of at most six, and then arms again: there is no cycle. */
  lemma ChainVisitsAll(g: Group, fuel: nat)
    requires Distinct(Output(g), RearmName(g.name)) && fuel >= |Output(g)|
    ensures var rearm := RearmName(g.name);
      Walk(Output(g), Head(Output(g), rearm), rearm, fuel) == Some(Reversed(g.readbacks) + Leaves(g.readbacks) + [rearm])
    ensures forall i | 0 <= i < |Output(g)| && Output(g)[i].Fanout? :: 1 <= |Output(g)[i].links| <= FANOUT
  {
    hide Linked, Distinct, Visits, Walk, Fanouts, Reads, Batches, Joined, Leaves, Reversed;
    var rearm := RearmName(g.name);
    var b := Batches(Leaves(g.readbacks), FANOUT);
    var f := Fanouts(g.name, b, 1, rearm);
    var r := Reads(g.readbacks, Head(f, rearm));
    var o := Output(g);
    assert o == f + r;
    BatchesJoin(Leaves(g.readbacks), FANOUT);
    FanoutsLinked(g.name, b, 1, rearm);
    ReadsLinked(g.readbacks, Head(f, rearm));
    VisitsConcat(f, r);
    LinkedConcat(f, r, rearm);
    WalkLinked(o, |o|, rearm, fuel);
    assert o[..|o|] == o;
    FanoutLinks(g.name, b, 1, rearm);
    ReadKinds(g.readbacks, Head(f, rearm));
  }

  /** How many signals and pairs the first x readbacks have. */
  function Before(rs: seq<Readback>, x: nat): nat
    requires x <= |rs|
  {
    if x == 0 then 0 else Before(rs, x - 1) + |rs[x - 1].signals| + |rs[x - 1].pairs|
  }

  lemma {:induction false} LeavesPart(rs: seq<Readback>, x: nat)
    requires x <= |rs|
    ensures |Leaves(rs[..x])| == Before(rs, x) && Leaves(rs[..x]) <= Leaves(rs)
  {
    LeavesStep(rs, x);
    if x > 0 {
      LeavesPart(rs, x - 1);
    }
    LeavesRest(rs, x);
  }

  lemma LeavesStep(rs: seq<Readback>, x: nat)
    requires x <= |rs|
    ensures Leaves(rs[..x]) == if x == 0 then [] else Leaves(rs[..x - 1]) + Names(rs[x - 1].signals) + Names(rs[x - 1].pairs)
  {
    if x > 0 {
      assert rs[..x][..x - 1] == rs[..x - 1];
    }
  }

  lemma {:induction false} LeavesRest(rs: seq<Readback>, x: nat)
    requires x <= |rs|
    ensures Leaves(rs[..x]) <= Leaves(rs)
    decreases |rs|
  {
    if x == |rs| {
      assert rs[..x] == rs;
    } else {
      assert rs[..|rs| - 1][..x] == rs[..x];
      LeavesRest(rs[..|rs| - 1], x);
    }
  }

  lemma LeafAt(rs: seq<Readback>, x: nat, i: nat)
    requires x < |rs| && i < |rs[x].signals| + |rs[x].pairs|
    ensures Before(rs, x) + i < |Leaves(rs)|
    ensures Leaves(rs)[Before(rs, x) + i] ==
      "$(PREF)" + (if i < |rs[x].signals| then rs[x].signals[i] else rs[x].pairs[i - |rs[x].signals|]) + "E_"
  {
    hide Leaves;
    LeavesPart(rs, x);
    LeavesPart(rs, x + 1);
    LeavesStep(rs, x + 1);
    var all := Leaves(rs[..x + 1]);
    assert all[Before(rs, x) + i] == (Names(rs[x].signals) + Names(rs[x].pairs))[i];
  }

  lemma {:induction false} ReversedAt(rs: seq<Readback>, y: nat)
    requires y < |rs|
    ensures |Reversed(rs)| == |rs| && Reversed(rs)[y] == "$(PREF)" + rs[|rs| - 1 - y].name + "E_"
  {
    if |rs| > 1 {
      ReversedAt(rs[1..], if y < |rs| - 1 then y else 0);
    }
  }

  /** Signal i of readback x, or, behind its signals, pair i, has its place in the walk. */
  predicate Placed(walk: seq<string>, rs: seq<Readback>, x: nat, i: nat)
    requires x < |rs| && i < |rs[x].signals| + |rs[x].pairs|
  {
    && |rs| + Before(rs, x) + i < |walk|
    && walk[|rs| + Before(rs, x) + i] ==
      "$(PREF)" + (if i < |rs[x].signals| then rs[x].signals[i] else rs[x].pairs[i - |rs[x].signals|]) + "E_"
  }

  /** What the walk visits, place by place: the readbacks from the last one back, then for every
      readback in order its signals and its pairs, and at the end the record that arms again. */
  lemma ChainVisitsEach(g: Group, fuel: nat) returns (walk: seq<string>)
    requires Distinct(Output(g), RearmName(g.name)) && fuel >= |Output(g)|
    ensures Walk(Output(g), Head(Output(g), RearmName(g.name)), RearmName(g.name), fuel) == Some(walk)
    ensures var rs := g.readbacks;
      && |walk| == |rs| + Before(rs, |rs|) + 1 && walk[|walk| - 1] == "$(PREF)" + g.name + "REARM"
      && (forall y | 0 <= y < |rs| :: walk[y] == "$(PREF)" + rs[|rs| - 1 - y].name + "E_")
      && (forall x, i | 0 <= x < |rs| && 0 <= i < |rs[x].signals| + |rs[x].pairs| :: Placed(walk, rs, x, i))
  {
    hide Distinct, Output, Walk, Leaves, Reversed;
    var rs := g.readbacks;
    ChainVisitsAll(g, fuel);
    walk := Reversed(rs) + Leaves(rs) + [RearmName(g.name)];
    LeavesPart(rs, |rs|);
    assert rs[..|rs|] == rs;
    assert |Reversed(rs)| == |rs| by { ReversedLength(rs); }
    forall y | 0 <= y < |rs| ensures walk[y] == "$(PREF)" + rs[|rs| - 1 - y].name + "E_" {
      ReversedAt(rs, y);
    }
    forall x, i | 0 <= x < |rs| && 0 <= i < |rs[x].signals| + |rs[x].pairs|
      ensures Placed(walk, rs, x, i)
    {
      LeafAt(rs, x, i);
      assert walk[|rs| + (Before(rs, x) + i)] == Leaves(rs)[Before(rs, x) + i];
    }
  }

  lemma ReversedLength(rs: seq<Readback>)
    ensures |Reversed(rs)| == |rs|
  {
  }

  /** Two chains, one ending where the other starts. */
  lemma LinkedConcat(a: seq<Entry>, b: seq<Entry>, next: string)
    requires Linked(a, next) && Linked(b, Head(a, next))
    ensures Linked(a + b, next)
  {
    forall i | 0 <= i < |a + b| ensures LinkAt(a + b, next, i) {
      if i < |a| {
        assert LinkAt(a, next, i);
      } else {
        assert LinkAt(b, Head(a, next), i - |a|);
      }
    }
  }

  lemma {:induction false} FanoutLinks(g: string, b: seq<seq<string>>, idx: nat, next: string)
    ensures forall i | 0 <= i < |b| :: Fanouts(g, b, idx, next)[i].Fanout? && Fanouts(g, b, idx, next)[i].links == b[|b| - 1 - i]
    decreases |b|
  {
    if b != [] {
      FanoutLinks(g, b[..|b| - 1], idx + 1, FanoutName(g, idx));
    }
  }

  lemma {:induction false} ReadKinds(rs: seq<Readback>, next: string)
    ensures forall i | 0 <= i < |rs| :: Reads(rs, next)[i].Read?
  {
    if rs != [] {
      ReadKinds(rs[1..], EntryName(rs[0].name));
    }
  }
}
