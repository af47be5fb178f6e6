/** Who sees whom in the area of interest of gaoi.c, and the weight that everyone carries for it.

    How a move chooses the new view of an object is not part of this model: it is given, as a list of live objects.
    What is done with it is. The views themselves are the tables of the module IdTable, here as the sets of their ids. */
module ViewLedger {

  import opened Sets

  const MAX_RESULT_COUNT := 10240
  const TWO_16 := 0x1_0000

  datatype Kind = Player | Npc | Monster

  /** `other` is m_iOtherWeight, of 16 bits; `own` is m_iWeight. */
  datatype Object = Object(kind: Kind, own: nat, other: nat, view: set<nat>, team: nat)

  type Objects = map<nat, Object>

  /** GetWeight */
  function Weight(o: Object): nat {
    if o.kind == Npc then 0 else o.own
  }

  /** Only players and monsters weigh on those who see them. */
  lemma SeeingWeighs(os: Objects, o: nat, oo: nat)
    requires o in os && oo in os && oo !in os[o].view && os[o].other < TWO_16
    ensures Entered(os, o, oo)[o].other ==
            if os[oo].kind == Npc then os[o].other else (os[o].other + os[oo].own) % TWO_16
  {
  }

  // ---- sums of weights

  ghost function Sum(os: Objects, ids: set<nat>): nat {
    if ids == {} then 0
    else
      var x :| x in ids;
      WeightOf(os, x) + Sum(os, ids - {x})
  }

  function WeightOf(os: Objects, id: nat): nat {
    if id in os then Weight(os[id]) else 0
  }

  lemma {:induction false} SumWithout(os: Objects, ids: set<nat>, x: nat)
    requires x in ids
    ensures Sum(os, ids) == WeightOf(os, x) + Sum(os, ids - {x})
    decreases ids
  {
    hide WeightOf;
    var y :| y in ids && Sum(os, ids) == WeightOf(os, y) + Sum(os, ids - {y});
    if y != x {
      SumWithout(os, ids - {y}, x);
      SumWithout(os, ids - {x}, y);
      assert ids - {y} - {x} == ids - {x} - {y};
    }
  }

  /** Sums depend on the weights alone. */
  lemma {:induction false} SumSame(os: Objects, ps: Objects, ids: set<nat>)
    requires forall x | x in ids :: WeightOf(os, x) == WeightOf(ps, x)
    ensures Sum(os, ids) == Sum(ps, ids)
  {
    hide WeightOf;
    if ids != {} {
      var x :| x in ids && Sum(os, ids) == WeightOf(os, x) + Sum(os, ids - {x});
      SumSame(os, ps, ids - {x});
      SumWithout(ps, ids, x);
    }
  }

  // ---- the ledger

  predicate Sees(os: Objects, a: nat, b: nat) {
    a in os && b in os[a].view
  }

  /** Everyone who is seen is live and sees back. */
  ghost predicate Symmetric(os: Objects) {
    forall a, b | Sees(os, a, b) :: Sees(os, b, a)
  }

  /** Everyone carries the weight of whom he sees, modulo 16 bits. */
  ghost predicate Balanced(os: Objects) {
    forall a | a in os :: Carries(os, a)
  }

  ghost predicate Carries(os: Objects, a: nat)
    requires a in os
  {
    os[a].other == Sum(os, os[a].view) % TWO_16
  }

  ghost predicate Ledger(os: Objects) {
    Symmetric(os) && Balanced(os)
  }

  /** The same objects, but for whom they see. */
  predicate SameBodies(os: Objects, ps: Objects) {
    ps.Keys == os.Keys &&
    forall x | x in os :: ps[x].kind == os[x].kind && ps[x].own == os[x].own && ps[x].team == os[x].team
  }

  /** LeaveView: oo is no longer seen by o. */
  function Left(os: Objects, o: nat, oo: nat): (ps: Objects)
    requires o in os && oo in os
    ensures ps.Keys == os.Keys && SameBodies(os, ps)
  {
    if oo !in os[o].view then os
    else os[o := os[o].(view := os[o].view - {oo}, other := (os[o].other - Weight(os[oo])) % TWO_16)]
  }

  /** EnterView: oo is seen by o. */
  function Entered(os: Objects, o: nat, oo: nat): (ps: Objects)
    requires o in os && oo in os
    ensures ps.Keys == os.Keys && SameBodies(os, ps)
  {
    if oo in os[o].view then os
    else os[o := os[o].(view := os[o].view + {oo}, other := (os[o].other + Weight(os[oo])) % TWO_16)]
  }

  /** The weight of an object does not depend on what it sees. */
  lemma SameWeights(os: Objects, ps: Objects, ids: set<nat>)
    requires SameBodies(os, ps)
    ensures Sum(os, ids) == Sum(ps, ids) && forall x | x in os :: Weight(ps[x]) == Weight(os[x])
  {
    SumSame(os, ps, ids);
  }

  lemma LeftCarries(os: Objects, o: nat, oo: nat)
    requires o in os && oo in os && oo in os[o].view && Carries(os, o)
    ensures Carries(Left(os, o, oo), o)
  {
    hide Sum, Weight;
    var ps := Left(os, o, oo);
    SumWithout(os, os[o].view, oo);
    SameWeights(os, ps, os[o].view - {oo});
    Taken(Sum(os, os[o].view - {oo}), Weight(os[oo]));
  }

  lemma EnteredCarries(os: Objects, o: nat, oo: nat)
    requires o in os && oo in os && oo !in os[o].view && Carries(os, o)
    ensures Carries(Entered(os, o, oo), o)
  {
    hide Sum, Weight;
    var ps := Entered(os, o, oo);
    SumWithout(ps, ps[o].view, oo);
    assert ps[o].view - {oo} == os[o].view;
    SameWeights(os, ps, os[o].view);
  }

  lemma Taken(x: nat, w: nat)
    ensures ((w + x) % TWO_16 - w) % TWO_16 == x % TWO_16
  {
  }

  lemma LeftBalanced(os: Objects, o: nat, oo: nat)
    requires o in os && oo in os && Balanced(os)
    ensures Balanced(Left(os, o, oo))
    ensures forall x, y :: Sees(Left(os, o, oo), x, y) <==> Sees(os, x, y) && !(x == o && y == oo)
  {
    hide Sum, Weight;
    var ps := Left(os, o, oo);
    forall a | a in ps
      ensures Carries(ps, a)
    {
      assert Carries(os, a);
      if a != o {
        SameWeights(os, ps, os[a].view);
      } else if oo in os[o].view {
        LeftCarries(os, o, oo);
      }
    }
  }

  lemma EnteredBalanced(os: Objects, o: nat, oo: nat)
    requires o in os && oo in os && Balanced(os)
    ensures Balanced(Entered(os, o, oo))
    ensures forall x, y :: Sees(Entered(os, o, oo), x, y) <==> Sees(os, x, y) || (x == o && y == oo)
  {
    hide Sum, Weight;
    var ps := Entered(os, o, oo);
    forall a | a in ps
      ensures Carries(ps, a)
    {
      assert Carries(os, a);
      if a != o {
        SameWeights(os, ps, os[a].view);
      } else if oo !in os[o].view {
        EnteredCarries(os, o, oo);
      }
    }
  }

  /** Two objects lose sight of each other. */
  function Parted(os: Objects, a: nat, b: nat): (ps: Objects)
    requires a in os && b in os
    ensures ps.Keys == os.Keys && SameBodies(os, ps)
  {
    Left(Left(os, a, b), b, a)
  }

  /** Two objects come to see each other. */
  function Met(os: Objects, a: nat, b: nat): (ps: Objects)
    requires a in os && b in os
    ensures ps.Keys == os.Keys && SameBodies(os, ps)
  {
    Entered(Entered(os, a, b), b, a)
  }

  predicate Pair(x: nat, y: nat, a: nat, b: nat) {
    (x == a && y == b) || (x == b && y == a)
  }

  lemma PartedKeeps(os: Objects, a: nat, b: nat)
    requires a in os && b in os && Ledger(os)
    ensures Ledger(Parted(os, a, b))
    ensures forall x, y :: Sees(Parted(os, a, b), x, y) <==> Sees(os, x, y) && !Pair(x, y, a, b)
  {
    hide Left, Balanced, Sees;
    LeftBalanced(os, a, b);
    LeftBalanced(Left(os, a, b), b, a);
  }

  lemma MetKeeps(os: Objects, a: nat, b: nat)
    requires a in os && b in os && Ledger(os)
    ensures Ledger(Met(os, a, b))
    ensures forall x, y :: Sees(Met(os, a, b), x, y) <==> Sees(os, x, y) || Pair(x, y, a, b)
  {
    hide Entered, Balanced, Sees;
    EnteredBalanced(os, a, b);
    EnteredBalanced(Entered(os, a, b), b, a);
  }

  /** Whoever is seen is live. */
  lemma SeenAreLive(os: Objects)
    requires Ledger(os)
    ensures forall a, b | Sees(os, a, b) :: b in os.Keys
  {
    hide Balanced;
    assert forall a, b | Sees(os, a, b) :: Sees(os, b, a);
  }

  lemma ViewFits(os: Objects, id: nat)
    requires Ledger(os) && id in os
    ensures |os[id].view| <= |os.Keys|
  {
    hide Ledger;
    SeenAreLive(os);
    forall b | b in os[id].view
      ensures b in os.Keys
    {
      assert Sees(os, id, b);
    }
    SubsetSize(os[id].view, os.Keys);
  }

  /** A new object sees nobody. */
  lemma NewKeeps(os: Objects, id: nat, o: Object)
    requires Ledger(os) && id !in os && o.view == {} && o.other == 0
    ensures Ledger(os[id := o])
  {
    hide Sum;
    var ps := os[id := o];
    forall a, b | Sees(ps, a, b)
      ensures Sees(ps, b, a)
    {
      assert Sees(os, a, b);
    }
    forall a | a in ps
      ensures Carries(ps, a)
    {
      if a != id {
        assert Carries(os, a);
        assert !Sees(os, a, id);
        SumSame(os, ps, os[a].view);
      } else {
        SumOfNone(ps);
      }
    }
  }

  lemma SumOfNone(os: Objects)
    ensures Sum(os, {}) == 0
  {
  }

  /** An object can go if and only if it sees nobody else. */
  lemma GoneKeeps(os: Objects, id: nat)
    requires Ledger(os) && id in os
    ensures Ledger(os - {id}) <==> os[id].view <= {id}
  {
    hide Sum;
    var ps := os - {id};
    if os[id].view <= {id} {
      forall a, b | Sees(ps, a, b)
        ensures Sees(ps, b, a)
      {
        assert Sees(os, a, b) && Sees(os, b, a);
      }
      forall a | a in ps
        ensures Carries(ps, a)
      {
        assert Carries(os, a);
        assert !Sees(os, a, id);
        SumSame(os, ps, os[a].view);
      }
    } else {
      var b :| b in os[id].view && b != id;
      assert Sees(os, id, b) && Sees(os, b, id);
      assert Sees(ps, b, id) && !Sees(ps, id, b);
    }
  }

  // ---- one object and its view

  /** `id` sees and is seen by exactly these; the others see each other as before. */
  ghost predicate Around(os: Objects, id: nat, view: set<nat>, before: Objects) {
    os.Keys == before.Keys && forall x, y :: Sees(os, x, y) <==> SeesAround(x, y, id, view, before)
  }

  predicate SeesAround(x: nat, y: nat, id: nat, view: set<nat>, before: Objects) {
    if x == id then y in view
    else if y == id then x in view
    else Sees(before, x, y)
  }

  lemma AroundFirst(os: Objects, id: nat)
    requires Ledger(os) && id in os
    ensures Around(os, id, os[id].view, os) && os[id].view <= os.Keys
  {
    hide Balanced;
    forall x, y
      ensures Sees(os, x, y) <==> SeesAround(x, y, id, os[id].view, os)
    {
      assert Sees(os, x, y) <==> Sees(os, y, x);
    }
    forall y | y in os[id].view
      ensures y in os
    {
      assert Sees(os, id, y) && Sees(os, y, id);
    }
  }

  lemma AroundParted(os: Objects, id: nat, view: set<nat>, before: Objects, b: nat)
    requires Ledger(os) && id in os && b in os && Around(os, id, view, before)
    ensures Ledger(Parted(os, b, id)) && Around(Parted(os, b, id), id, view - {b}, before)
  {
    hide Ledger, Sees, Parted;
    PartedKeeps(os, b, id);
    var ps := Parted(os, b, id);
    forall x, y
      ensures Sees(ps, x, y) <==> SeesAround(x, y, id, view - {b}, before)
    {
      assert Sees(os, x, y) <==> SeesAround(x, y, id, view, before);
    }
  }

  lemma AroundMet(os: Objects, id: nat, view: set<nat>, before: Objects, b: nat)
    requires Ledger(os) && id in os && b in os && Around(os, id, view, before)
    ensures Ledger(Met(os, b, id)) && Around(Met(os, b, id), id, view + {b}, before)
  {
    hide Ledger, Sees, Met;
    MetKeeps(os, b, id);
    var ps := Met(os, b, id);
    forall x, y
      ensures Sees(ps, x, y) <==> SeesAround(x, y, id, view + {b}, before)
    {
      assert Sees(os, x, y) <==> SeesAround(x, y, id, view, before);
    }
  }

  lemma AroundIs(os: Objects, id: nat, view: set<nat>, before: Objects)
    requires id in os && Around(os, id, view, before)
    ensures os[id].view == view
  {
    forall y
      ensures y in os[id].view <==> y in view
    {
      assert Sees(os, id, y) <==> SeesAround(id, y, id, view, before);
    }
  }

  lemma OthersSee(os: Objects, id: nat, view: set<nat>, before: Objects)
    requires Around(os, id, view, before)
    ensures forall x, y | x != id && y != id :: Sees(os - {id}, x, y) <==> Sees(before, x, y)
  {
    forall x, y | x != id && y != id
      ensures Sees(os - {id}, x, y) <==> Sees(before, x, y)
    {
      assert Sees(os, x, y) <==> SeesAround(x, y, id, view, before);
    }
  }

  function Kept(view: set<nat>, gone: seq<nat>, live: set<nat>): set<nat> {
    set y | y in view && !(y in gone && y in live)
  }

  function Joined(view: set<nat>, come: seq<nat>, live: set<nat>): set<nat> {
    view + (set y | y in come && y in live)
  }

  /** Complete lists of changes make one view the other. */
  lemma Changed(view: set<nat>, newView: set<nat>, gone: seq<nat>, come: seq<nat>, live: set<nat>)
    requires view <= live && newView <= live
    requires forall y | y in gone :: y in view && y !in newView
    requires forall y | y in come :: y in newView && y !in view
    ensures (forall y | y in view && y !in newView :: y in gone) && (forall y | y in newView && y !in view :: y in come) ==>
              Joined(Kept(view, gone, live), come, live) == newView
  {
  }

  // ---- the space

  datatype Kick = Kick(id: nat, chosen: seq<nat>, reached: bool)

  datatype Op =
    | Create(id: nat, kind: Kind, own: nat, view: set<nat>, kicks: seq<Kick>)
    | Move(id: nat, view: set<nat>, kicks: seq<Kick>, back: bool)
    | Remove(id: nat)
    | Teams(teams: map<nat, seq<nat>>, teamOf: map<nat, nat>)

  /** The leader of a team stands first in it. */
  predicate Leads(os: Objects, teams: map<nat, seq<nat>>, id: nat) {
    id in os && os[id].team != 0 && os[id].team in teams &&
    teams[os[id].team] != [] && teams[os[id].team][0] == id
  }

  lemma SameSize(os: Objects, ps: Objects)
    requires SameBodies(os, ps)
    ensures |os| == |ps|
  {
    assert |os.Keys| == |ps.Keys|;
  }

  lemma NoLeader(os: Objects, teams: map<nat, seq<nat>>, x: nat)
    ensures NoneLeads(os, teams) ==> !Leads(os, teams, x)
  {
  }

  predicate NoneLeads(os: Objects, teams: map<nat, seq<nat>>) {
    forall x | x in os :: !Leads(os, teams, x)
  }

  lemma SameLeaders(os: Objects, ps: Objects, teams: map<nat, seq<nat>>)
    requires SameBodies(os, ps)
    ensures forall x :: Leads(os, teams, x) <==> Leads(ps, teams, x)
    ensures NoneLeads(os, teams) <==> NoneLeads(ps, teams)
  {
    assert forall x :: Leads(os, teams, x) <==> Leads(ps, teams, x);
  }

  /** What is done for x when leaders are looked for: if x leads a team, the team comes in step. */
  ghost predicate Followed(teams: map<nat, seq<nat>>, os: Objects, ps: Objects, x: nat) {
    if Leads(os, teams, x) && os[x].kind == Player then
      InStep(ps, os, os[x].view + {x}, Followers(teams[os[x].team], |teams[os[x].team]|, os.Keys))
    else ps == os
  }

  ghost predicate AllFollowed(teams: map<nat, seq<nat>>, walked: seq<nat>, chain: seq<Objects>) {
    |chain| == |walked| + 1 && forall n | 0 <= n < |walked| :: Followed(teams, chain[n], chain[n + 1], walked[n])
  }

  lemma FirstFollowed(teams: map<nat, seq<nat>>, x: nat, os: Objects, ps: Objects)
    ensures Followed(teams, os, ps, x) ==> AllFollowed(teams, [x], [os, ps])
  {
  }

  lemma NextFollowed(teams: map<nat, seq<nat>>, walked: seq<nat>, chain: seq<Objects>, x: nat, ps: Objects)
    requires |chain| == |walked| + 1
    ensures AllFollowed(teams, walked, chain) && Followed(teams, chain[|walked|], ps, x) ==>
              AllFollowed(teams, walked + [x], chain + [ps])
  {
    hide Followed;
  }

  /** A kick that was reached parts those chosen from the object, and then the team of the object, if it leads one, of
      those chosen, and of everyone listed meanwhile comes in step, in this order. */
  ghost predicate KickedTo(teams: map<nat, seq<nat>>, kick: Kick, os: Objects, ps: Objects) {
    if kick.reached && kick.id in os then
      exists walked, chain ::
        AllFollowed(teams, walked, chain) && [kick.id] + kick.chosen <= walked && chain[|walked|] == ps &&
        Around(chain[0], kick.id, Kept(os[kick.id].view, kick.chosen, os.Keys), os)
    else ps == os
  }

  ghost predicate KickedAll(teams: map<nat, seq<nat>>, kicks: seq<Kick>, os: Objects, ps: Objects) {
    exists trace :: AllKicked(teams, kicks, trace) && trace[0] == os && trace[|kicks|] == ps
  }

  ghost predicate AllKicked(teams: map<nat, seq<nat>>, kicks: seq<Kick>, trace: seq<Objects>) {
    |trace| == |kicks| + 1 && forall n | 0 <= n < |kicks| :: KickedTo(teams, kicks[n], trace[n], trace[n + 1])
  }

  /** A kick that was reached parts its object from those chosen. */
  predicate Cuts(kick: Kick, x: nat, y: nat) {
    kick.reached && ((x == kick.id && y in kick.chosen) || (y == kick.id && x in kick.chosen))
  }

  predicate Cut(kicks: seq<Kick>, x: nat, y: nat) {
    exists k | k in kicks :: Cuts(k, x, y)
  }

  /** All pairs that were there, but for those cut. */
  ghost predicate KickedBy(os: Objects, kicks: seq<Kick>, before: Objects) {
    forall x, y :: Sees(os, x, y) <==> Sees(before, x, y) && !Cut(kicks, x, y)
  }

  /** What the kicks put on the list. */
  function Listed(kicks: seq<Kick>): nat {
    if kicks == [] then 0 else Listed(kicks[..|kicks| - 1]) + 2 + |kicks[|kicks| - 1].chosen|
  }

  lemma NotKicked(os: Objects)
    ensures KickedBy(os, [], os)
  {
  }

  lemma KickedNext(os: Objects, kicks: seq<Kick>, n: nat, before: Objects, ps: Objects)
    requires n < |kicks| && Ledger(os) && KickedBy(os, kicks[..n], before)
    requires if kicks[n].reached && kicks[n].id in os
             then Around(ps, kicks[n].id, Kept(os[kicks[n].id].view, kicks[n].chosen, ps.Keys), os) else ps == os
    ensures KickedBy(ps, kicks[..n + 1], before)
  {
    hide Balanced;
    var k := kicks[n];
    SeenAreLive(os);
    assert kicks[..n + 1] == kicks[..n] + [k];
    forall x, y
      ensures Sees(ps, x, y) <==> Sees(os, x, y) && !Cuts(k, x, y)
    {
      assert Sees(os, x, y) <==> Sees(os, y, x);
      if k.reached && k.id in os {
        assert Sees(ps, x, y) <==> SeesAround(x, y, k.id, Kept(os[k.id].view, k.chosen, ps.Keys), os);
      }
    }
    forall x, y
      ensures Cut(kicks[..n + 1], x, y) <==> Cut(kicks[..n], x, y) || Cuts(k, x, y)
    {
    }
  }

  /** Empty lists have room for everyone, this many times. */
  predicate TurnsFit(turns: nat, everyone: nat) {
    turns * (2 + everyone) <= MAX_RESULT_COUNT
  }

  class Space {
    var objects: Objects
    // the members of every team, its leader first
    var teams: map<nat, seq<nat>>
    // who left and who entered, as far as the result has room
    var ll: seq<nat>
    var le: seq<nat>

    constructor ()
      ensures objects == map[] && Ledger(objects) && Room()
    {
      objects, teams, ll, le := map[], map[], [], [];
    }

    predicate Room()
      reads this
    {
      |ll| <= MAX_RESULT_COUNT && |le| <= MAX_RESULT_COUNT
    }

    /** Neither list is full: nothing was dropped on the way here. */
    predicate Whole()
      reads this
    {
      |ll| < MAX_RESULT_COUNT && |le| < MAX_RESULT_COUNT
    }

    method AppendLl(i: nat)
      requires Room()
      modifies `ll
      ensures Room() && ll == if |old(ll)| < MAX_RESULT_COUNT then old(ll) + [i] else old(ll)
    {
      if |ll| < MAX_RESULT_COUNT {
        ll := ll + [i];
      }
    }

    method AppendLe(i: nat)
      requires Room()
      modifies `le
      ensures Room() && le == if |old(le)| < MAX_RESULT_COUNT then old(le) + [i] else old(le)
    {
      if |le| < MAX_RESULT_COUNT {
        le := le + [i];
      }
    }

    method LeaveView(o: nat, oo: nat)
      requires o in objects && oo in objects
      modifies `objects
      ensures objects == Left(old(objects), o, oo)
    {
      if oo in objects[o].view {
        objects := objects[o := objects[o].(view := objects[o].view - {oo},
                                            other := (objects[o].other - Weight(objects[oo])) % TWO_16)];
      }
    }

    method EnterView(o: nat, oo: nat)
      requires o in objects && oo in objects
      modifies `objects
      ensures objects == Entered(old(objects), o, oo)
    {
      if oo !in objects[o].view {
        objects := objects[o := objects[o].(view := objects[o].view + {oo},
                                            other := (objects[o].other + Weight(objects[oo])) % TWO_16)];
      }
    }

    /** Those of the list, from a position on, part from the object. */
    method LeaveAll(id: nat, from: nat, ghost before: Objects, ghost view: set<nat>)
      requires Ledger(objects) && id in objects && from <= |ll| && Around(objects, id, view, before)
      modifies `objects
      ensures Ledger(objects) && SameBodies(old(objects), objects)
      ensures Around(objects, id, Kept(view, ll[from..], objects.Keys), before)
    {
      hide Ledger, Around, Left;
      ghost var v := view;
      for at := from to |ll|
        invariant Ledger(objects) && SameBodies(old(objects), objects) && Around(objects, id, v, before)
        invariant v == Kept(view, ll[from..at], objects.Keys)
        modifies `objects
      {
        var oo := ll[at];
        assert ll[from..at + 1] == ll[from..at] + [oo];
        if oo in objects {
          AroundParted(objects, id, v, before, oo);
          LeaveView(oo, id);
          LeaveView(id, oo);
          v := v - {oo};
        }
      }
      assert ll[from..|ll|] == ll[from..];
    }

    /** Those of the other list meet it. */
    method EnterAll(id: nat, from: nat, ghost before: Objects, ghost view: set<nat>)
      requires Ledger(objects) && id in objects && from <= |le| && Around(objects, id, view, before)
      modifies `objects
      ensures Ledger(objects) && SameBodies(old(objects), objects)
      ensures Around(objects, id, Joined(view, le[from..], objects.Keys), before)
    {
      hide Ledger, Around, Entered;
      ghost var v := view;
      for at := from to |le|
        invariant Ledger(objects) && SameBodies(old(objects), objects) && Around(objects, id, v, before)
        invariant v == Joined(view, le[from..at], objects.Keys)
        modifies `objects
      {
        var oo := le[at];
        assert le[from..at + 1] == le[from..at] + [oo];
        if oo in objects {
          AroundMet(objects, id, v, before, oo);
          EnterView(oo, id);
          EnterView(id, oo);
          v := v + {oo};
        }
      }
      assert le[from..|le|] == le[from..];
    }

    /** map_foreach over a view: those that are not in the other go to the list, in the order of the table. */
    method ListMissing(keys: set<nat>, other: set<nat>, list: seq<nat>) returns (longer: seq<nat>)
      requires |list| <= MAX_RESULT_COUNT
      ensures list <= longer && |longer| <= MAX_RESULT_COUNT && |longer| <= |list| + |keys|
      ensures forall y | y in longer[|list|..] :: y in keys && y !in other
      ensures |list| + |keys| <= MAX_RESULT_COUNT || |longer| < MAX_RESULT_COUNT ==>
                forall y | y in keys && y !in other :: y in longer[|list|..]
    {
      longer := list;
      var rest := keys;
      while rest != {}
        invariant list <= longer && |longer| <= MAX_RESULT_COUNT && rest <= keys
        invariant forall y | y in longer[|list|..] :: y in keys && y !in other
        invariant |longer| + |rest| <= |list| + |keys|
        invariant |list| + |keys| <= MAX_RESULT_COUNT || |longer| < MAX_RESULT_COUNT ==>
                    forall y | y in keys - rest && y !in other :: y in longer[|list|..]
        decreases |rest|
      {
        var y :| y in rest;
        rest := rest - {y};
        if y !in other && |longer| < MAX_RESULT_COUNT {
          assert (longer + [y])[|list|..] == longer[|list|..] + [y];
          longer := longer + [y];
        }
      }
    }

    /** The end of a move: the lists of those who leave and who enter are made, and then carried out. When the lists
        have room, the object comes to see exactly the new view. */
    method ApplyView(id: nat, newView: set<nat>)
      requires Ledger(objects) && id in objects && newView <= objects.Keys && Room()
      modifies `objects, `ll, `le
      ensures Ledger(objects) && SameBodies(old(objects), objects) && Room()
      ensures old(ll) <= ll && old(le) <= le
      ensures |ll| <= |old(ll)| + 2 + |old(objects)| && |le| <= |old(le)| + 2 + |old(objects)|
      ensures Whole() ||
              (|old(ll)| + 2 + |old(objects)| <= MAX_RESULT_COUNT && |old(le)| + 2 + |old(objects)| <= MAX_RESULT_COUNT) ==>
                Around(objects, id, newView, old(objects))
    {
      hide Ledger, Around, Sees;
      ghost var before := objects;
      AroundFirst(objects, id);
      var view := objects[id].view;
      SubsetSize(view, objects.Keys);
      SubsetSize(newView, objects.Keys);
      var from, fromLe := ListChanges(id, view, newView);
      LeaveAll(id, from, before, view);
      ghost var kept := Kept(view, ll[from..], before.Keys);
      EnterAll(id, fromLe, before, kept);
      Changed(view, newView, ll[from..], le[fromLe..], before.Keys);
    }

    /** Who is in one view only goes to one of the lists, behind the object. */
    method ListChanges(id: nat, view: set<nat>, newView: set<nat>) returns (from: nat, fromLe: nat)
      requires Room()
      modifies `ll, `le
      ensures Room() && old(ll) <= ll && old(le) <= le && from <= |ll| && fromLe <= |le|
      ensures |ll| <= |old(ll)| + 2 + |view| && |le| <= |old(le)| + 2 + |newView|
      ensures forall y | y in ll[from..] :: y in view && y !in newView
      ensures forall y | y in le[fromLe..] :: y in newView && y !in view
      ensures Whole() || (|old(ll)| + 2 + |view| <= MAX_RESULT_COUNT && |old(le)| + 2 + |newView| <= MAX_RESULT_COUNT) ==>
                (forall y | y in view && y !in newView :: y in ll[from..]) &&
                (forall y | y in newView && y !in view :: y in le[fromLe..])
    {
      AppendLl(0);
      AppendLl(id);
      from := |ll|;
      ll := ListMissing(view, newView, ll);
      AppendLe(0);
      AppendLe(id);
      fromLe := |le|;
      le := ListMissing(newView, view, le);
    }

    // ---- teams

    predicate InTeam(id: nat)
      requires id in objects
      reads this
    {
      var t := objects[id].team;
      t != 0 && t in teams && id in teams[t]
    }

    predicate IsTeamLeader(id: nat): (b: bool)
      requires id in objects
      ensures b <==> Leads(objects, teams, id)
      reads this
    {
      InTeam(id) && teams[objects[id].team][0] == id
    }

    /** The lists have room for everyone, for this many objects in turn. */
    predicate Fits(turns: nat)
      reads this
    {
      |ll| + turns * (2 + |objects|) <= MAX_RESULT_COUNT && |le| + turns * (2 + |objects|) <= MAX_RESULT_COUNT
    }

    /** SyncTeamLeaderView: the members come to see what their leader sees, and the leader, and each other. */
    method SyncTeamLeaderView(id: nat)
      requires Ledger(objects) && Room()
      modifies `objects, `ll, `le
      ensures Ledger(objects) && SameBodies(old(objects), objects) && Room()
      ensures id !in objects || old(objects)[id].kind != Player || !old(IsTeamLeader(id)) ==>
                objects == old(objects) && ll == old(ll) && le == old(le)
      ensures old(ll) <= ll && old(le) <= le
      ensures Whole() ==> Followed(teams, old(objects), objects, id)
      ensures id in objects && old(objects)[id].kind == Player && old(IsTeamLeader(id)) &&
              (Whole() || old(Fits(|teams[objects[id].team]|))) ==>
                InStep(objects, old(objects), old(objects)[id].view + {id},
                       Followers(teams[old(objects)[id].team], |teams[old(objects)[id].team]|, objects.Keys))
    {
      hide Ledger, Around, InStep, Sees, Fits, Followers;
      if id !in objects || objects[id].kind != Player || !IsTeamLeader(id) {
        return;
      }
      ghost var before, seen := objects, objects[id].view + {id};
      AroundFirst(objects, id);
      var newView := objects[id].view + {id};
      var members := teams[objects[id].team];
      ghost var fits := Fits(|members|);
      ghost var group: set<nat> := {};
      InStepFirst(before, seen);
      TurnFits(|members|);
      NoFollowers(members, before.Keys);
      for j := 1 to |members|
        invariant Ledger(objects) && SameBodies(before, objects) && Room() && newView <= objects.Keys
        invariant newView == seen + group && group == Followers(members, j, before.Keys)
        invariant old(ll) <= ll && old(le) <= le
        invariant fits ==> Fits(|members| - j)
        invariant fits || Whole() ==> InStep(objects, before, seen, group)
      {
        NextFollower(members, j, before.Keys);
        TurnFits(|members| - j);
        newView, group := SyncMember(members[j], newView, before, seen, group, |members| - j);
      }
    }

    /** One member comes to see what the leader sees; the next ones see it too. */
    method SyncMember(mem: nat, view: set<nat>, ghost before: Objects, ghost seen: set<nat>, ghost were: set<nat>, ghost turns: nat)
      returns (newView: set<nat>, ghost group: set<nat>)
      requires Ledger(objects) && SameBodies(before, objects) && Room() && view <= objects.Keys
      requires view == seen + were && turns > 0
      modifies `objects, `ll, `le
      ensures Ledger(objects) && SameBodies(before, objects) && Room() && newView <= objects.Keys
      ensures newView == seen + group && group == were + if mem in before then {mem} else {}
      ensures old(ll) <= ll && old(le) <= le
      ensures old(Fits(turns)) ==> Fits(turns - 1)
      ensures (Whole() || old(Fits(turns))) && InStep(old(objects), before, seen, were) ==>
                InStep(objects, before, seen, group)
    {
      hide Ledger, Around, InStep;
      newView, group := view, were;
      TurnFits(turns);
      if mem in objects {
        ghost var between := objects;
        newView := newView - {mem};
        ApplyView(mem, newView);
        if old(Fits(turns)) {
          TurnTaken(turns, |old(ll)|, |old(le)|);
        }
        if (Whole() || old(Fits(turns))) && InStep(between, before, seen, were) {
          InStepNext(between, before, seen, were, mem, objects);
        }
        newView := newView + {mem};
        group := group + {mem};
      }
    }

    lemma TurnFits(turns: nat)
      ensures turns > 0 && Fits(turns) ==>
                Fits(turns - 1) && |ll| + 2 + |objects| <= MAX_RESULT_COUNT && |le| + 2 + |objects| <= MAX_RESULT_COUNT
    {
      if turns > 0 {
        assert turns * (2 + |objects|) == (turns - 1) * (2 + |objects|) + (2 + |objects|);
      }
    }

    lemma TurnTaken(turns: nat, n: nat, m: nat)
      requires turns > 0 && |ll| <= n + 2 + |objects| && |le| <= m + 2 + |objects|
      requires n + turns * (2 + |objects|) <= MAX_RESULT_COUNT && m + turns * (2 + |objects|) <= MAX_RESULT_COUNT
      ensures Fits(turns - 1)
    {
      assert turns * (2 + |objects|) == (turns - 1) * (2 + |objects|) + (2 + |objects|);
    }

    /** AoiKickObjectView: those chosen part from the object when their weight is enough, and teams follow their
        leaders. */
    method KickObjectView(kick: Kick)
      requires Ledger(objects) && Room()
      modifies `objects, `ll, `le
      ensures Ledger(objects) && SameBodies(old(objects), objects) && Room()
      ensures old(ll) <= ll && old(le) <= le
      ensures old(NoLeaders()) ==> |ll| <= |old(ll)| + 2 + |kick.chosen| && le == old(le)
      ensures !kick.reached || kick.id !in objects ==> objects == old(objects)
      ensures kick.reached && kick.id in objects && old(NoLeaders()) &&
              (Whole() || |old(ll)| + 2 + |kick.chosen| <= MAX_RESULT_COUNT) ==>
                Around(objects, kick.id, Kept(old(objects)[kick.id].view, kick.chosen, objects.Keys), old(objects))
      ensures Whole() ==> KickedTo(teams, kick, old(objects), objects)
    {
      hide Ledger, Around, AllFollowed, InTeam, IsTeamLeader, Leads;
      var id := kick.id;
      if id !in objects {
        return;
      }
      var from := ListChosen(kick);
      if !kick.reached {
        return;
      }
      ghost var before, listed := objects, ll;
      AroundFirst(objects, id);
      LeaveAll(id, from, before, before[id].view);
      SameLeaders(before, objects, teams);
      ghost var walked, chain := FollowLeaders(id, from);
      assert listed[from..] <= ll[from..];
    }

    /** The object and those chosen go to the list of those who leave. */
    method ListChosen(kick: Kick) returns (from: nat)
      requires Room()
      modifies `ll
      ensures Room() && old(ll) <= ll && from <= |ll| <= |old(ll)| + 2 + |kick.chosen|
      ensures |ll| < MAX_RESULT_COUNT || |old(ll)| + 2 + |kick.chosen| <= MAX_RESULT_COUNT ==> ll[from..] == kick.chosen
    {
      AppendLl(0);
      AppendLl(kick.id);
      from := |ll|;
      for i := 0 to |kick.chosen|
        invariant Room() && old(ll) <= ll && |old(ll)| <= from <= |ll| <= |old(ll)| + 2 + i
        invariant |ll| < MAX_RESULT_COUNT || |old(ll)| + 2 + |kick.chosen| <= MAX_RESULT_COUNT ==>
                    from == |old(ll)| + 2 && |ll| == from + i && ll[from..] == kick.chosen[..i]
        modifies `ll
      {
        AppendLl(kick.chosen[i]);
      }
      assert kick.chosen[..|kick.chosen|] == kick.chosen;
    }

    /** The teams of the object and of those on the list follow their leaders. The list grows while it is walked. */
    method FollowLeaders(id: nat, from: nat) returns (ghost walked: seq<nat>, ghost chain: seq<Objects>)
      requires Ledger(objects) && Room() && from <= |ll| && id in objects
      modifies `objects, `ll, `le
      ensures Ledger(objects) && SameBodies(old(objects), objects) && Room()
      ensures old(ll) <= ll && old(le) <= le
      ensures walked == [id] + ll[from..]
      ensures Whole() ==> AllFollowed(teams, walked, chain) && chain[0] == old(objects) && chain[|walked|] == objects
      ensures old(NoLeaders()) ==> objects == old(objects) && ll == old(ll) && le == old(le)
    {
      hide Ledger, AllFollowed, Followed, IsTeamLeader, Whole;
      ghost var before := objects;
      FollowLeader(id);
      walked, chain := [id], [before, objects];
      FirstFollowed(teams, id, before, objects);
      var i := from;
      while i < |ll|
        invariant Ledger(objects) && SameBodies(old(objects), objects) && Room()
        invariant old(ll) <= ll && old(le) <= le && from <= i <= |ll| && walked == [id] + ll[from..i]
        invariant |chain| == |walked| + 1 && chain[0] == before && chain[|walked|] == objects
        invariant Whole() ==> AllFollowed(teams, walked, chain)
        invariant old(NoLeaders()) ==> objects == before && ll == old(ll) && le == old(le)
        decreases MAX_RESULT_COUNT - i
      {
        ghost var listed, between := ll, objects;
        assert ll[from..i + 1] == ll[from..i] + [ll[i]];
        FollowLeader(ll[i]);
        assert ll[from..i + 1] == listed[from..i + 1];
        NextFollowed(teams, walked, chain, listed[i], objects);
        walked, chain := walked + [listed[i]], chain + [objects];
        i := i + 1;
      }
    }

    method FollowLeader(x: nat)
      requires Ledger(objects) && Room()
      modifies `objects, `ll, `le
      ensures Ledger(objects) && SameBodies(old(objects), objects) && Room()
      ensures old(ll) <= ll && old(le) <= le && (Whole() ==> old(Whole()))
      ensures Whole() ==> Followed(teams, old(objects), objects, x)
      ensures old(NoLeaders()) ==> objects == old(objects) && ll == old(ll) && le == old(le)
    {
      hide Ledger, InStep, Followers;
      if x in objects && IsTeamLeader(x) {
        SyncTeamLeaderView(x);
      }
    }

    /** The kicks on the way to a new view. */
    method KickViews(kicks: seq<Kick>) returns (ghost trace: seq<Objects>)
      requires Ledger(objects) && Room()
      modifies `objects, `ll, `le
      ensures Ledger(objects) && SameBodies(old(objects), objects) && Room()
      ensures kicks == [] ==> objects == old(objects) && ll == old(ll) && le == old(le)
      ensures old(ll) <= ll && old(le) <= le
      ensures old(NoLeaders()) ==> NoLeaders() && |ll| <= |old(ll)| + Listed(kicks) && le == old(le)
      ensures old(NoLeaders()) && Whole() ==> KickedBy(objects, kicks, old(objects))
      ensures |trace| == |kicks| + 1 && trace[0] == old(objects) && trace[|kicks|] == objects
      ensures Whole() ==> AllKicked(teams, kicks, trace)
    {
      hide Ledger, Around, KickedBy, KickedTo;
      NotKicked(objects);
      trace := [objects];
      for n := 0 to |kicks|
        invariant Ledger(objects) && SameBodies(old(objects), objects) && Room()
        invariant n == 0 ==> objects == old(objects) && ll == old(ll) && le == old(le)
        invariant old(ll) <= ll && old(le) <= le
        invariant old(NoLeaders()) ==> NoLeaders() && |ll| <= |old(ll)| + Listed(kicks[..n]) && le == old(le)
        invariant old(NoLeaders()) && Whole() ==> KickedBy(objects, kicks[..n], old(objects))
        invariant |trace| == n + 1 && trace[0] == old(objects) && trace[n] == objects
        invariant Whole() ==> AllKicked(teams, kicks[..n], trace)
      {
        ghost var between := objects;
        assert kicks[..n + 1][..n] == kicks[..n];
        KickObjectView(kicks[n]);
        if old(NoLeaders()) && Whole() {
          KickedNext(between, kicks, n, old(objects), objects);
        }
        trace := trace + [objects];
      }
      assert kicks[..|kicks|] == kicks;
    }

    predicate NoLeaders()
      reads this
    {
      NoneLeads(objects, teams)
    }

    // ---- operations

    /** AoiUpdateObjectPos, from where the new view is known: the kicks were decided on the way to it. The object comes
        to see the new view, and a team follows its leader. */
    method UpdateObjectPos(id: nat, newView: set<nat>, kicks: seq<Kick>, back: bool)
      requires Ledger(objects) && id in objects && newView <= objects.Keys && Room()
      modifies `objects, `ll, `le
      ensures Ledger(objects) && SameBodies(old(objects), objects) && Room()
      ensures back && kicks == [] && 2 + |old(objects)| <= MAX_RESULT_COUNT &&
              !(old(objects)[id].kind == Player && old(IsTeamLeader(id))) ==>
                Around(objects, id, newView, old(objects))
      ensures back && kicks == [] && id != 0 && old(objects)[id].kind == Player && old(IsTeamLeader(id)) &&
              TurnsFit(1 + |old(teams[objects[id].team])|, |old(objects)|) ==>
                exists moved: Objects ::
                  Around(moved, id, newView, old(objects)) &&
                  InStep(objects, moved, newView + {id},
                         Followers(teams[old(objects)[id].team], |teams[old(objects)[id].team]|, objects.Keys))
      // after any kicks, as long as nothing was dropped from the lists
      ensures old(NoLeaders()) && back && Listed(kicks) + 2 + |old(objects)| < MAX_RESULT_COUNT ==> Whole()
      ensures Whole() ==>
                exists kicked: Objects, moved: Objects ::
                  Ledger(kicked) && SameBodies(old(objects), kicked) && KickedAll(teams, kicks, old(objects), kicked) &&
                  (old(NoLeaders()) ==> KickedBy(kicked, kicks, old(objects))) &&
                  SameBodies(old(objects), moved) && Around(moved, id, newView, kicked) &&
                  if id != 0 then Followed(teams, moved, objects, id) else objects == moved
      ensures Whole() && !old(Leads(objects, teams, id)) ==> objects[id].view == newView
    {
      hide Ledger, Around, InStep, Followers, Followed, KickedBy, AllKicked, InTeam, Leads, NoneLeads;
      if back {
        ll, le := [], [];
      }
      ghost var trace := KickViews(kicks);
      ghost var kicked := objects;
      assert Whole() ==> KickedAll(teams, kicks, old(objects), kicked);
      SameLeaders(old(objects), kicked, teams);
      NoLeader(kicked, teams, id);
      SameSize(old(objects), kicked);
      ghost var moved := ComeToSee(id, newView);
    }

    /** The end of a move: the object comes to see the new view, and then its team does. */
    method ComeToSee(id: nat, newView: set<nat>) returns (ghost moved: Objects)
      requires Ledger(objects) && id in objects && newView <= objects.Keys && Room()
      modifies `objects, `ll, `le
      ensures Ledger(objects) && SameBodies(old(objects), objects) && Room()
      ensures old(ll) <= ll && old(le) <= le
      ensures Whole() ==>
                SameBodies(old(objects), moved) && Around(moved, id, newView, old(objects)) &&
                if id != 0 then Followed(teams, moved, objects, id) else objects == moved
      ensures Whole() && !old(Leads(objects, teams, id)) ==> objects[id].view == newView
      ensures !old(Leads(objects, teams, id)) ==>
                |ll| <= |old(ll)| + 2 + |old(objects)| && |le| <= |old(le)| + 2 + |old(objects)|
      // with room enough at the beginning
      ensures |old(ll)| + 2 + |old(objects)| <= MAX_RESULT_COUNT && |old(le)| + 2 + |old(objects)| <= MAX_RESULT_COUNT &&
              !(old(objects)[id].kind == Player && old(Leads(objects, teams, id))) ==>
                Around(objects, id, newView, old(objects))
      ensures old(ll) == [] && old(le) == [] && id != 0 && old(objects)[id].kind == Player &&
              old(Leads(objects, teams, id)) && TurnsFit(1 + |old(teams[objects[id].team])|, |old(objects)|) ==>
                Around(moved, id, newView, old(objects)) &&
                InStep(objects, moved, newView + {id},
                       Followers(teams[old(objects)[id].team], |teams[old(objects)[id].team]|, objects.Keys))
    {
      hide Ledger, Around, InStep, Followers, InTeam, TurnsFit;
      ghost var before := objects;
      ApplyView(id, newView);
      moved := objects;
      SameLeaders(before, moved, teams);
      SameSize(before, moved);
      if Around(moved, id, newView, before) {
        AroundIs(moved, id, newView, before);
      }
      if id != 0 {
        MovedFits(id, before, newView, moved);
        SyncTeamLeaderView(id);
      }
    }

    /** After a move of a leader, there is room for the members' turns. */
    lemma MovedFits(id: nat, before: Objects, newView: set<nat>, moved: Objects)
      requires id in objects && moved == objects && SameBodies(before, moved)
      ensures Around(moved, id, newView, before) ==> moved[id].view == newView
      ensures IsTeamLeader(id) && |ll| <= 2 + |before| && |le| <= 2 + |before| &&
              TurnsFit(1 + |teams[objects[id].team]|, |before|) ==>
                Fits(|teams[objects[id].team]|) && 2 + |before| <= MAX_RESULT_COUNT
    {
      hide Around;
      if Around(moved, id, newView, before) {
        AroundIs(moved, id, newView, before);
      }
      if IsTeamLeader(id) {
        var n := |teams[objects[id].team]|;
        assert (1 + n) * (2 + |before|) == (2 + |before|) + n * (2 + |before|);
        assert |before| == |objects| by { assert before.Keys == objects.Keys; }
      }
    }

    /** AoiCreateObject: a new object belongs to no team, and comes to see its view. */
    method CreateObject(id: nat, kind: Kind, own: nat, newView: set<nat>, kicks: seq<Kick>)
      requires Ledger(objects) && id !in objects && newView <= objects.Keys + {id} && Room()
      modifies `objects, `ll, `le
      ensures Ledger(objects) && objects.Keys == old(objects).Keys + {id} && Room()
      ensures SameBodies(old(objects)[id := Object(kind, own, 0, {}, 0)], objects)
      ensures Whole() ==> objects[id].view == newView
      ensures kicks == [] && 3 + |old(objects)| <= MAX_RESULT_COUNT ==>
                Around(objects, id, newView, old(objects)[id := Object(kind, own, 0, {}, 0)])
      ensures old(NoLeaders()) && Listed(kicks) + 3 + |old(objects)| < MAX_RESULT_COUNT ==> Whole()
      ensures Whole() ==>
                exists kicked: Objects ::
                  Ledger(kicked) && SameBodies(old(objects)[id := Object(kind, own, 0, {}, 0)], kicked) &&
                  KickedAll(teams, kicks, old(objects)[id := Object(kind, own, 0, {}, 0)], kicked) &&
                  (old(NoLeaders()) ==> KickedBy(kicked, kicks, old(objects)[id := Object(kind, own, 0, {}, 0)])) &&
                  Around(objects, id, newView, kicked)
    {
      hide Ledger, Around, KickedBy, KickedAll;
      var o := Object(kind, own, 0, {}, 0);
      NewKeeps(objects, id, o);
      objects := objects[id := o];
      UpdateObjectPos(id, newView, kicks, true);
    }

    /** AoiRemoveObject: everyone who sees the object is told, as far as the result has room. */
    method RemoveObject(id: nat)
      requires Ledger(objects) && id in objects
      modifies `objects, `ll, `le
      ensures objects.Keys == old(objects).Keys - {id} && Room()
      ensures SameBodies(old(objects) - {id}, objects)
      ensures forall x, y | x != id && y != id :: Sees(objects, x, y) <==> Sees(old(objects), x, y)
      ensures |old(objects)[id].view| <= MAX_RESULT_COUNT ==> Ledger(objects)
      ensures |old(objects)[id].view - {id}| > MAX_RESULT_COUNT ==> !Ledger(objects)
    {
      hide Ledger, Around, Sees;
      ghost var before := objects;
      ll, le := [], [];
      AroundFirst(objects, id);
      var view := objects[id].view;
      ll := ListMissing(view, {}, ll);
      assert ll[0..] == ll;
      LeaveAll(id, 0, before, view);
      ghost var kept := Kept(view, ll, before.Keys);
      AroundIs(objects, id, kept, before);
      GoneKeeps(objects, id);
      OthersSee(objects, id, kept, before);
      objects := objects - {id};
      if |view - {id}| > MAX_RESULT_COUNT {
        NotAll(view - {id}, ll);
      }
    }

    /** Teams are made, changed and dissolved without a change to any view. */
    method ChangeTeams(newTeams: map<nat, seq<nat>>, teamOf: map<nat, nat>)
      requires Ledger(objects)
      modifies `objects, `teams
      ensures Ledger(objects) && objects.Keys == old(objects).Keys && teams == newTeams
      ensures forall id | id in objects ::
                objects[id] == old(objects)[id].(team := if id in teamOf then teamOf[id] else old(objects)[id].team)
    {
      TeamsKeep(objects, teamOf);
      objects := WithTeams(objects, teamOf);
      teams := newTeams;
    }

    method Take(op: Op)
      requires Ledger(objects) && Room() && |objects.Keys| <= MAX_RESULT_COUNT
      modifies this
      ensures Ledger(objects) && Room() && |objects.Keys| <= MAX_RESULT_COUNT
      ensures objects.Keys == NextLive(old(objects).Keys, op)
      ensures Whole() ==> Shown(old(objects), op)
      ensures teams == if op.Teams? then op.teams else old(teams)
    {
      hide Ledger, Around, InStep, Sees, Followers, TurnsFit, InTeam, IsTeamLeader;
      match op
      case Create(id, kind, own, view, kicks) => TakeCreate(id, kind, own, view, kicks);
      case Move(id, view, kicks, back) =>
        if id in objects && view <= objects.Keys {
          UpdateObjectPos(id, view, kicks, back);
        }
      case Remove(id) => TakeRemove(id);
      case Teams(newTeams, teamOf) => ChangeTeams(newTeams, teamOf);
    }

    /** A new object, and one that moves and leads no team, sees the view that was chosen for it. */
    predicate Shown(before: Objects, op: Op)
      reads this
    {
      match op
      case Create(id, _, _, view, _) =>
        id !in before && |before.Keys| < MAX_RESULT_COUNT && view <= before.Keys + {id} ==>
          id in objects && objects[id].view == view
      case Move(id, view, _, _) =>
        id in before && view <= before.Keys && !Leads(before, teams, id) ==> id in objects && objects[id].view == view
      case _ => true
    }

    method TakeCreate(id: nat, kind: Kind, own: nat, view: set<nat>, kicks: seq<Kick>)
      requires Ledger(objects) && Room() && |objects.Keys| <= MAX_RESULT_COUNT
      modifies `objects, `ll, `le
      ensures Ledger(objects) && Room() && |objects.Keys| <= MAX_RESULT_COUNT
      ensures objects.Keys == NextLive(old(objects).Keys, Create(id, kind, own, view, kicks))
      ensures Whole() ==> Shown(old(objects), Create(id, kind, own, view, kicks))
    {
      hide Ledger, Around;
      ghost var keys := objects.Keys;
      if id in objects {
        assert keys + {id} == keys;
      } else if |objects.Keys| < MAX_RESULT_COUNT && view <= objects.Keys + {id} {
        CreateObject(id, kind, own, view, kicks);
        assert |keys + {id}| == |keys| + 1;
      }
    }

    method TakeRemove(id: nat)
      requires Ledger(objects) && Room() && |objects.Keys| <= MAX_RESULT_COUNT
      modifies `objects, `ll, `le
      ensures Ledger(objects) && Room() && |objects.Keys| <= MAX_RESULT_COUNT
      ensures objects.Keys == old(objects).Keys - {id}
    {
      hide Ledger;
      ghost var keys := objects.Keys;
      if id in objects {
        ViewFits(objects, id);
        RemoveObject(id);
        SubsetSize(objects.Keys, keys);
      } else {
        assert keys - {id} == keys;
      }
    }
  }

  // ---- whole runs

  /** Who is there after an operation; one that its caller may not use changes nothing. */
  function NextLive(live: set<nat>, op: Op): set<nat> {
    match op
    case Create(id, _, _, view, _) => if |live| < MAX_RESULT_COUNT && view <= live + {id} then live + {id} else live
    case Remove(id) => live - {id}
    case _ => live
  }

  function LiveAfter(ops: seq<Op>): set<nat> {
    if ops == [] then {} else NextLive(LiveAfter(ops[..|ops| - 1]), ops[|ops| - 1])
  }

  /** With at most 10240 objects at a time, the ledger is kept through every run of the operations. */
  method Run(ops: seq<Op>) returns (s: Space)
    ensures fresh(s) && Ledger(s.objects) && s.objects.Keys == LiveAfter(ops)
    ensures forall a, b | Sees(s.objects, a, b) :: b in LiveAfter(ops)
  {
    hide Ledger, NextLive;
    s := new Space();
    for n := 0 to |ops|
      invariant fresh(s) && Ledger(s.objects) && s.Room() && |s.objects.Keys| <= MAX_RESULT_COUNT
      invariant s.objects.Keys == LiveAfter(ops[..n])
    {
      assert ops[..n + 1][..n] == ops[..n];
      s.Take(ops[n]);
    }
    assert ops[..|ops|] == ops;
    SeenAreLive(s.objects);
  }

  // ---- a team in step

  /** The live members that come after the leader, up to a place in the list. */
  function Followers(members: seq<nat>, n: nat, live: set<nat>): set<nat>
    requires n <= |members|
  {
    set j | 1 <= j < n && members[j] in live :: members[j]
  }

  /** Each of the group sees what the leader saw, the leader, and the others; the rest see each other as before. */
  ghost predicate InStep(os: Objects, before: Objects, seen: set<nat>, group: set<nat>) {
    (forall m, y | m in group :: Sees(os, m, y) <==> y in seen + group - {m}) &&
    forall x, y | x !in group && y !in group :: Sees(os, x, y) <==> Sees(before, x, y)
  }

  lemma InStepFirst(os: Objects, seen: set<nat>)
    ensures InStep(os, os, seen, {})
  {
  }

  lemma InStepNext(os: Objects, before: Objects, seen: set<nat>, group: set<nat>, m: nat, ps: Objects)
    requires InStep(os, before, seen, group) && Around(ps, m, seen + group - {m}, os)
    ensures InStep(ps, before, seen, group + {m})
  {
    hide Sees;
    forall x, y
      ensures Sees(ps, x, y) <==> SeesAround(x, y, m, seen + group - {m}, os)
    {
    }
    forall k, y | k in group + {m}
      ensures Sees(ps, k, y) <==> y in seen + (group + {m}) - {k}
    {
      assert Sees(ps, k, y) <==> SeesAround(k, y, m, seen + group - {m}, os);
    }
  }

  lemma NoFollowers(members: seq<nat>, live: set<nat>)
    requires members != []
    ensures Followers(members, 1, live) == {}
  {
  }

  lemma NextFollower(members: seq<nat>, j: nat, live: set<nat>)
    requires 1 <= j < |members|
    ensures Followers(members, j + 1, live) == Followers(members, j, live) + if members[j] in live then {members[j]} else {}
  {
  }

  function WithTeams(os: Objects, teamOf: map<nat, nat>): (ps: Objects)
    ensures ps.Keys == os.Keys
  {
    map id | id in os :: if id in teamOf then os[id].(team := teamOf[id]) else os[id]
  }

  lemma TeamsKeep(os: Objects, teamOf: map<nat, nat>)
    requires Ledger(os)
    ensures Ledger(WithTeams(os, teamOf))
  {
    hide Sum;
    var ps := WithTeams(os, teamOf);
    forall a, b | Sees(ps, a, b)
      ensures Sees(ps, b, a)
    {
      assert Sees(os, a, b);
    }
    forall a | a in ps
      ensures Carries(ps, a)
    {
      assert Carries(os, a);
      SumSame(os, ps, os[a].view);
    }
  }

  /** A list that is too short misses someone. */
  lemma {:induction false} NotAll(ids: set<nat>, list: seq<nat>)
    requires |ids| > |list|
    ensures exists y :: y in ids && y !in list
  {
    if list == [] {
      var y :| y in ids;
      assert y !in list;
    } else {
      var last := list[|list| - 1];
      NotAll(ids - {last}, list[..|list| - 1]);
      var y :| y in ids - {last} && y !in list[..|list| - 1];
      assert y !in list;
    }
  }
}
