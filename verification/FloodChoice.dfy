/** Which of the offered architecture-all packages ends up in a target: the decisions of floodlist_trypackage. */
module FloodChoice {
  import opened Options
  import opened Versions

  /** A package offered by another architecture; `sibling`: a binary of the same source version is in the target. */
  datatype Offer = Offer(version: Version, sibling: bool)

  /**
   What is known of a package: the version in the target and whether its source
   has a sibling there, the offer chosen so far, and `new_has_sibling`.
   */
  datatype State = State(held: Option<Version>, heldSibling: bool, chosen: Option<Offer>, chosenSibling: bool)

  predicate Newer(v: Version, w: Version) { VersionOrder(v, w) > 0 }

  ghost predicate Ready(s: State) {
    (s.held.Some? || s.chosen.Some?) && (s.chosenSibling ==> s.chosen.Some?)
  }

  /** One more offer for a package that is in the list. */
  function Take(s: State, o: Offer): (r: State)
    requires Ready(s)
    ensures Ready(r) && r.held == s.held && r.heldSibling == s.heldSibling
  {
    if s.chosenSibling && !Newer(o.version, s.chosen.value.version) then s
    else if !s.chosenSibling && s.held.Some? && !Newer(o.version, s.held.value) then s
    else if !o.sibling && s.chosen.None? && s.heldSibling then s
    else if !o.sibling && s.chosen.Some? && s.chosenSibling then s
    else if !o.sibling && s.chosen.Some? && !Newer(o.version, s.chosen.value.version) then s
    else State(s.held, s.heldSibling, Some(o), o.sibling)
  }

  function TakeAll(s: State, offers: seq<Offer>): (r: State)
    requires Ready(s)
    ensures Ready(r) && r.held == s.held && r.heldSibling == s.heldSibling
  {
    if offers == [] then s else Take(TakeAll(s, offers[..|offers| - 1]), offers[|offers| - 1])
  }

  /** A package found in the target. */
  function Known(held: Version, heldSibling: bool): State { State(Some(held), heldSibling, None, false) }

  /** A package that is only offered; the first offer is noted as one without sibling, whatever it is. */
  function Unknown(first: Offer): State { State(None, false, Some(first), false) }

  // ----- the newest of some offers

  ghost predicate Above(held: Version, offers: seq<Offer>, o: Offer) { o in offers && Newer(o.version, held) }

  ghost predicate SomeAbove(held: Version, offers: seq<Offer>, sibling: bool) {
    exists o :: Above(held, offers, o) && o.sibling == sibling
  }

  /** The newest of the offers with, or without, a sibling that are newer than the old version. */
  ghost predicate NewestAbove(held: Version, offers: seq<Offer>, sibling: bool, o: Offer) {
    && Above(held, offers, o) && o.sibling == sibling
    && forall p :: Above(held, offers, p) && p.sibling == sibling ==> !Newer(p.version, o.version)
  }

  /**
   The choice for a package in the target: the newest offer above the old
   version that has a sibling; if there is none, the newest above the old version,
   but only if the old source has no sibling; otherwise none.
   */
  ghost predicate Best(held: Version, heldSibling: bool, offers: seq<Offer>, chosen: Option<Offer>) {
    if SomeAbove(held, offers, true) then chosen.Some? && NewestAbove(held, offers, true, chosen.value)
    else if !heldSibling && SomeAbove(held, offers, false) then
      chosen.Some? && NewestAbove(held, offers, false, chosen.value)
    else chosen.None?
  }

  lemma NewerTransitive(u: Version, v: Version, w: Version)
    ensures Newer(u, v) && !Newer(w, v) ==> Newer(u, w)
    ensures !Newer(u, v) && !Newer(v, w) ==> !Newer(u, w)
    ensures Newer(u, v) && Newer(v, w) ==> Newer(u, w)
    ensures !Newer(v, v)
  {
    hide VersionOrder;
    VersionOrderIsOrder(u, v, w);
    VersionOrderIsOrder(w, v, u);
    VersionOrderIsOrder(u, w, v);
    VersionOrderIsOrder(w, u, v);
    VersionOrderIsOrder(v, w, u);
  }

  lemma {:induction false} ChoiceIsBest(held: Version, heldSibling: bool, offers: seq<Offer>)
    ensures var s := TakeAll(Known(held, heldSibling), offers);
      && Best(held, heldSibling, offers, s.chosen)
      && (s.chosen.Some? ==> s.chosenSibling == s.chosen.value.sibling)
      && (s.chosen.None? ==> !s.chosenSibling)
  {
    if offers != [] {
      var before, o := offers[..|offers| - 1], offers[|offers| - 1];
      ChoiceIsBest(held, heldSibling, before);
      assert offers == before + [o];
      BestMore(held, heldSibling, before, TakeAll(Known(held, heldSibling), before), o);
    }
  }

  lemma AboveMore(held: Version, offers: seq<Offer>, o: Offer, sibling: bool)
    ensures forall p :: Above(held, offers + [o], p) <==> Above(held, offers, p) || (p == o && Newer(o.version, held))
    ensures SomeAbove(held, offers + [o], sibling)
      <==> SomeAbove(held, offers, sibling) || (o.sibling == sibling && Newer(o.version, held))
  {
    hide VersionOrder;
    forall p ensures Above(held, offers + [o], p) <==> Above(held, offers, p) || (p == o && Newer(o.version, held)) { }
    if SomeAbove(held, offers, sibling) {
      var p :| Above(held, offers, p) && p.sibling == sibling;
      assert Above(held, offers + [o], p);
    }
    assert Newer(o.version, held) ==> Above(held, offers + [o], o);
  }

  /** The newest so far is kept unless the offer competes with it and is newer. */
  lemma NewestMore(held: Version, offers: seq<Offer>, o: Offer, sibling: bool, c: Offer)
    requires NewestAbove(held, offers, sibling, c)
    ensures o.sibling == sibling && Newer(o.version, c.version) ==>
      Newer(o.version, held) && NewestAbove(held, offers + [o], sibling, o)
    ensures o.sibling != sibling || !Newer(o.version, c.version) ==> NewestAbove(held, offers + [o], sibling, c)
  {
    hide VersionOrder;
    AboveMore(held, offers, o, sibling);
    NewerTransitive(o.version, c.version, held);
    NewerOver(o.version, c.version, held);
    forall p | Above(held, offers, p) && p.sibling == sibling && Newer(o.version, c.version)
      ensures !Newer(p.version, o.version)
    {
      NewerOver(p.version, o.version, c.version);
    }
    NewerTransitive(c.version, o.version, o.version);
  }

  lemma NewerOver(u: Version, v: Version, w: Version)
    ensures Newer(u, v) && Newer(v, w) ==> Newer(u, w)
    ensures Newer(u, v) ==> !Newer(v, u)
  {
    hide VersionOrder;
    VersionOrderIsOrder(w, v, u);
    VersionOrderIsOrder(u, v, w);
    VersionOrderIsOrder(v, w, u);
    VersionOrderIsOrder(v, u, w);
    VersionOrderIsOrder(w, u, v);
  }

  lemma NewestFirst(held: Version, offers: seq<Offer>, o: Offer, sibling: bool)
    requires !SomeAbove(held, offers, sibling) && o.sibling == sibling && Newer(o.version, held)
    ensures NewestAbove(held, offers + [o], sibling, o)
  {
    hide VersionOrder;
    AboveMore(held, offers, o, sibling);
    NewerTransitive(held, o.version, held);
  }

  lemma BestMore(held: Version, heldSibling: bool, offers: seq<Offer>, s: State, o: Offer)
    requires Ready(s) && s.held == Some(held) && s.heldSibling == heldSibling
    requires Best(held, heldSibling, offers, s.chosen)
    requires s.chosen.Some? ==> s.chosenSibling == s.chosen.value.sibling
    requires s.chosen.None? ==> !s.chosenSibling
    ensures Best(held, heldSibling, offers + [o], Take(s, o).chosen)
  {
    AboveMore(held, offers, o, true);
    AboveMore(held, offers, o, false);
    assert s.chosen.Some? ==>
        Newer(s.chosen.value.version, held) && NewestAbove(held, offers, s.chosenSibling, s.chosen.value);
    hide NewestAbove, SomeAbove, Above, Newer;
    if s.chosen.Some? {
      NewestMore(held, offers, o, s.chosenSibling, s.chosen.value);
      NewerOver(o.version, s.chosen.value.version, held);
    }
    if Newer(o.version, held) && !SomeAbove(held, offers, o.sibling) {
      NewestFirst(held, offers, o, o.sibling);
    }
  }

  /** The order in which the offers come makes no difference, up to versions that compare equal. */
  lemma OrderIrrelevant(held: Version, heldSibling: bool, a: seq<Offer>, b: seq<Offer>)
    requires forall o :: o in a <==> o in b
    ensures var x := TakeAll(Known(held, heldSibling), a).chosen; var y := TakeAll(Known(held, heldSibling), b).chosen;
      && (x.Some? <==> y.Some?)
      && (x.Some? ==> VersionOrder(x.value.version, y.value.version) == 0 && x.value.sibling == y.value.sibling)
  {
    ChoiceIsBest(held, heldSibling, a);
    ChoiceIsBest(held, heldSibling, b);
    var x, y := TakeAll(Known(held, heldSibling), a).chosen, TakeAll(Known(held, heldSibling), b).chosen;
    hide TakeAll, VersionOrder;
    assert forall o :: Above(held, a, o) <==> Above(held, b, o);
    assert forall s :: SomeAbove(held, a, s) <==> SomeAbove(held, b, s);
    if x.Some? {
      assert !Newer(x.value.version, y.value.version) && !Newer(y.value.version, x.value.version);
      VersionOrderIsOrder(x.value.version, x.value.version, y.value.version);
    }
  }

  // ----- packages that are not in the target

  /** The newest of some offers, of those with a sibling. */
  ghost predicate Newest(offers: seq<Offer>, o: Offer) {
    o in offers && forall p :: p in offers ==> !Newer(p.version, o.version)
  }

  ghost predicate NewestSibling(offers: seq<Offer>, o: Offer) {
    o in offers && o.sibling && forall p :: p in offers && p.sibling ==> !Newer(p.version, o.version)
  }

  ghost predicate HasSibling(offers: seq<Offer>) { exists o :: o in offers && o.sibling }

  /** After the first offer: the newest of the later ones that have a sibling, or else the newest of all. */
  lemma {:induction false} UnknownChoice(first: Offer, offers: seq<Offer>)
    ensures var s := TakeAll(Unknown(first), offers);
      && s.chosen.Some? && s.chosenSibling == HasSibling(offers)
      && (if HasSibling(offers) then NewestSibling(offers, s.chosen.value)
          else Newest([first] + offers, s.chosen.value))
  {
    NewerTransitive(first.version, first.version, first.version);
    if offers != [] {
      var before, o := offers[..|offers| - 1], offers[|offers| - 1];
      UnknownChoice(first, before);
      assert offers == before + [o];
      UnknownMore(first, before, TakeAll(Unknown(first), before), o);
    }
  }

  lemma UnknownMore(first: Offer, offers: seq<Offer>, s: State, o: Offer)
    requires Ready(s) && s.held.None? && s.chosen.Some? && s.chosenSibling == HasSibling(offers)
    requires if HasSibling(offers) then NewestSibling(offers, s.chosen.value)
             else Newest([first] + offers, s.chosen.value)
    ensures var t := Take(s, o); var all := offers + [o];
      && t.chosen.Some? && t.chosenSibling == HasSibling(all)
      && (if HasSibling(all) then NewestSibling(all, t.chosen.value) else Newest([first] + all, t.chosen.value))
  {
    hide VersionOrder;
    var c, all := s.chosen.value, offers + [o];
    assert forall p :: p in all <==> p in offers || p == o;
    assert o in all;
    NewerTransitive(o.version, o.version, o.version);
    NewerOver(o.version, c.version, c.version);
    forall p | p in [first] + all && Newer(o.version, c.version) && !Newer(p.version, c.version)
      ensures !Newer(p.version, o.version)
    {
      NewerOver(p.version, o.version, c.version);
    }
    assert HasSibling(all) <==> HasSibling(offers) || o.sibling;
    assert forall p :: p in [first] + all <==> p in [first] + offers || p == o;
  }

  /** What one would want of the choice. */
  ghost predicate Ideal(offers: seq<Offer>, o: Offer) {
    if HasSibling(offers) then NewestSibling(offers, o) else Newest(offers, o)
  }

  /** A later offer that should have lost to the first one. */
  ghost predicate Overlooked(first: Offer, offers: seq<Offer>) {
    first.sibling
    && if HasSibling(offers) then forall p :: p in offers && p.sibling ==> Newer(first.version, p.version)
       else exists p :: p in offers && Newer(p.version, first.version)
  }

  /**
   For a package that is not in the target the choice is as wanted unless the
   first offer has a sibling and is either newer than all later ones that have
   one, or older than some later offer while no later one has a sibling.
   */
  lemma UnknownIdeal(first: Offer, offers: seq<Offer>)
    ensures Ideal([first] + offers, TakeAll(Unknown(first), offers).chosen.value) <==> !Overlooked(first, offers)
  {
    UnknownChoice(first, offers);
    var c, all := TakeAll(Unknown(first), offers).chosen.value, [first] + offers;
    hide TakeAll, VersionOrder;
    assert forall p :: p in all <==> p == first || p in offers;
    assert HasSibling(all) <==> first.sibling || HasSibling(offers);
    if first.sibling && HasSibling(offers) {
      forall p | p in offers && p.sibling ensures Newer(first.version, c.version) ==> Newer(first.version, p.version) {
        NewerTransitive(first.version, c.version, p.version);
      }
      assert Overlooked(first, offers) <==> Newer(first.version, c.version);
    } else if first.sibling {
      NewerTransitive(first.version, first.version, first.version);
      forall p | p in offers ensures Newer(p.version, first.version) ==> Newer(c.version, first.version) {
        NewerOlder(p.version, c.version, first.version);
      }
    }
  }

  lemma NewerOlder(u: Version, v: Version, w: Version)
    ensures !Newer(u, v) && Newer(u, w) ==> Newer(v, w)
  {
    hide VersionOrder;
    VersionOrderIsOrder(u, v, w);
    VersionOrderIsOrder(w, v, u);
  }

  /** For example, version 1 loses to version 0 although both have a sibling. */
  lemma NewerOverlooked()
    ensures var one, zero := Version(1, [], []), Version(0, [], []);
      && Newer(one, zero) && Overlooked(Offer(one, true), [Offer(zero, true)])
      && TakeAll(Unknown(Offer(one, true)), [Offer(zero, true)]).chosen == Some(Offer(zero, true))
  {
    var first, later := Offer(Version(1, [], []), true), Offer(Version(0, [], []), true);
    assert [later][..0] == [] && later in [later];
    assert HasSibling([later]);
  }

  // ----- all packages at once

  type States = map<seq<int>, State>

  ghost predicate AllReady(m: States) { forall n :: n in m ==> Ready(m[n]) }

  /** One offer, in a target where each name has its state. */
  ghost function Flooded(m: States, name: seq<int>, o: Offer): (r: States)
    requires AllReady(m)
    ensures AllReady(r)
  {
    m[name := if name in m then Take(m[name], o) else Unknown(o)]
  }

  datatype Named = Named(name: seq<int>, offer: Offer)

  ghost function FloodAll(m: States, feed: seq<Named>): (r: States)
    requires AllReady(m)
    ensures AllReady(r)
  {
    if feed == [] then m else Flooded(FloodAll(m, feed[..|feed| - 1]), feed[|feed| - 1].name, feed[|feed| - 1].offer)
  }

  /** The offers for one name, in the order of the feed. */
  ghost function OffersFor(feed: seq<Named>, name: seq<int>): seq<Offer> {
    if feed == [] then []
    else OffersFor(feed[..|feed| - 1], name) + (if feed[|feed| - 1].name == name then [feed[|feed| - 1].offer] else [])
  }

  /** The feed treats the names independently of each other: each gets the choice among its own offers. */
  lemma {:induction false} FloodEach(m: States, feed: seq<Named>, name: seq<int>)
    requires AllReady(m)
    ensures name in m ==>
              name in FloodAll(m, feed) && FloodAll(m, feed)[name] == TakeAll(m[name], OffersFor(feed, name))
    ensures name !in m ==> (name in FloodAll(m, feed) <==> OffersFor(feed, name) != [])
    ensures name !in m && OffersFor(feed, name) != [] ==>
      FloodAll(m, feed)[name] == TakeAll(Unknown(OffersFor(feed, name)[0]), OffersFor(feed, name)[1..])
  {
    if feed != [] {
      var before, last := feed[..|feed| - 1], feed[|feed| - 1];
      FloodEach(m, before, name);
      var a, o := OffersFor(before, name), last.offer;
      var f, b := FloodAll(m, before), OffersFor(feed, name);
      OffersMore(feed, name);
      assert FloodAll(m, feed) == f[last.name := if last.name in f then Take(f[last.name], o) else Unknown(o)];
      if last.name == name {
        if name in m {
          TakeAllMore(m[name], a, b, o);
        } else if a != [] {
          assert b[1..] == a[1..] + [o] && b[0] == a[0];
          TakeAllMore(Unknown(a[0]), a[1..], b[1..], o);
        } else {
          TakeNone(Unknown(o), b[1..]);
        }
      }
      hide *;
    }
  }

  lemma OffersMore(feed: seq<Named>, name: seq<int>)
    requires feed != []
    ensures var before, last := feed[..|feed| - 1], feed[|feed| - 1];
      OffersFor(feed, name) == OffersFor(before, name) + if last.name == name then [last.offer] else []
    ensures var before, last := feed[..|feed| - 1], feed[|feed| - 1];
      last.name != name ==> OffersFor(feed, name) == OffersFor(before, name)
  {
  }

  lemma TakeNone(s: State, a: seq<Offer>)
    requires Ready(s) && a == []
    ensures TakeAll(s, a) == s
  {
  }

  lemma TakeAllMore(s: State, a: seq<Offer>, b: seq<Offer>, o: Offer)
    requires Ready(s) && b == a + [o]
    ensures TakeAll(s, b) == Take(TakeAll(s, a), o)
  {
    assert b[..|a|] == a;
  }

  /** So a package in the target ends with the best of the offers for it, whatever else is fed and in whatever order. */
  lemma FloodChoosesBest(m: States, feed: seq<Named>, name: seq<int>, held: Version, heldSibling: bool)
    requires AllReady(m) && name in m && m[name] == Known(held, heldSibling)
    ensures name in FloodAll(m, feed)
    ensures Best(held, heldSibling, OffersFor(feed, name), FloodAll(m, feed)[name].chosen)
  {
    FloodEach(m, feed, name);
    ChoiceIsBest(held, heldSibling, OffersFor(feed, name));
  }
}
