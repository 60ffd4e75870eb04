/** Bullets in flight: the culling of bullets that left the top of the
    screen, and the bookkeeping of a bullet-alien collision pass. */
module Bullets {

  /** A bullet's rectangle, given by its bottom edge: the only coordinate
      the controller reads. */
  datatype Bullet = Bullet(bottom: int)

  /** The bullets _update_bullets keeps: those whose bottom is still below
      the top of the screen, in their original order. */
  function OnScreen(s: seq<Bullet>): (r: seq<Bullet>)
    ensures |r| <= |s|
    ensures forall b :: b in r ==> b in s && b.bottom > 0
    ensures forall i :: 0 <= i < |s| && s[i].bottom > 0 ==> s[i] in r
  {
    if s == [] then []
    else OnScreen(s[..|s| - 1]) + (if s[|s| - 1].bottom > 0 then [s[|s| - 1]] else [])
  }

  /** Culling works piece by piece: the bullets kept from a + b are those
      kept from a followed by those kept from b, so the order is preserved. */
  lemma {:induction false} OnScreenAppend(a: seq<Bullet>, b: seq<Bullet>)
    ensures OnScreen(a + b) == OnScreen(a) + OnScreen(b)
  {
    if b == [] {
      assert a + b == a;
    } else {
      var b' := b[..|b| - 1];
      assert (a + b)[..|a + b| - 1] == a + b';
      OnScreenAppend(a, b');
    }
  }

  /** A bullet group whose bullets are all on screen is left as it is. */
  lemma {:induction false} OnScreenKeepsVisible(s: seq<Bullet>)
    requires forall i :: 0 <= i < |s| ==> s[i].bottom > 0
    ensures OnScreen(s) == s
  {
    if s != [] {
      OnScreenKeepsVisible(s[..|s| - 1]);
      assert s == s[..|s| - 1] + [s[|s| - 1]];
    }
  }

  /** Culling twice keeps the same bullets as culling once. */
  lemma OnScreenIdempotent(s: seq<Bullet>)
    ensures OnScreen(OnScreen(s)) == OnScreen(s)
  {
    var r := OnScreen(s);
    forall i | 0 <= i < |r| ensures r[i].bottom > 0 {
      assert r[i] in r;
    }
    OnScreenKeepsVisible(r);
  }

  /** The culling loop of _update_bullets: walks a snapshot of the group
      and keeps each bullet whose bottom is below the top of the screen. */
  method Cull(snapshot: seq<Bullet>) returns (kept: seq<Bullet>)
    ensures kept == OnScreen(snapshot)
  {
    kept := [];
    var i := 0;
    while i < |snapshot|
      invariant 0 <= i <= |snapshot|
      invariant kept == OnScreen(snapshot[..i])
    {
      assert snapshot[..i + 1] == snapshot[..i] + [snapshot[i]];
      if snapshot[i].bottom > 0 {
        kept := kept + [snapshot[i]];
      }
      i := i + 1;
    }
    assert snapshot[..i] == snapshot;
  }

  /** One entry of the dictionary groupcollide returns: a bullet (by its
      position in the bullet group) and the aliens it struck (by their
      positions in the alien group). */
  datatype Hit = Hit(bullet: nat, aliens: seq<nat>)

  predicate Distinct(s: seq<nat>) {
    forall i, j :: 0 <= i < j < |s| ==> s[i] != s[j]
  }

  /** The bullets of the collision dictionary, in its order. */
  function HitBullets(hits: seq<Hit>): seq<nat> {
    seq(|hits|, i requires 0 <= i < |hits| => hits[i].bullet)
  }

  /** The aliens of the collision dictionary, value after value. */
  function StruckAliens(hits: seq<Hit>): seq<nat> {
    if hits == [] then [] else StruckAliens(hits[..|hits| - 1]) + hits[|hits| - 1].aliens
  }

  /** What groupcollide with both kill flags set guarantees of its result:
      each key is a distinct bullet of the group with at least one alien,
      and since a struck alien leaves the group at once, no alien is listed
      twice. */
  predicate WellFormed(hits: seq<Hit>, bulletCount: nat, alienCount: nat) {
    && (forall i :: 0 <= i < |hits| ==> hits[i].bullet < bulletCount && hits[i].aliens != [])
    && Distinct(HitBullets(hits))
    && Distinct(StruckAliens(hits))
    && (forall i :: 0 <= i < |StruckAliens(hits)| ==> StruckAliens(hits)[i] < alienCount)
  }

  /** The sum the scoring loop builds: len(aliens) over the dictionary's values. */
  function TotalHits(hits: seq<Hit>): nat {
    if hits == [] then 0 else TotalHits(hits[..|hits| - 1]) + |hits[|hits| - 1].aliens|
  }

  /** The elements of s whose positions are not in `gone`, in order. */
  function Without<T>(s: seq<T>, gone: set<nat>): (r: seq<T>)
    ensures |r| <= |s|
    ensures forall x :: x in r ==> x in s
    ensures forall i :: 0 <= i < |s| && i !in gone ==> s[i] in r
  {
    if s == [] then []
    else Without(s[..|s| - 1], gone) + (if |s| - 1 in gone then [] else [s[|s| - 1]])
  }

  function Elements(s: seq<nat>): set<nat> {
    set i | 0 <= i < |s| :: s[i]
  }

  /** The score loop adds one alien's points per alien listed. */
  lemma {:induction false} TotalHitsCountsAliens(hits: seq<Hit>)
    ensures TotalHits(hits) == |StruckAliens(hits)|
  {
    if hits != [] {
      TotalHitsCountsAliens(hits[..|hits| - 1]);
    }
  }

  /** A sequence without repetitions has as many elements as its set. */
  lemma {:induction false} DistinctElements(s: seq<nat>)
    requires Distinct(s)
    ensures |Elements(s)| == |s|
  {
    if s != [] {
      var init := s[..|s| - 1];
      assert Distinct(init);
      DistinctElements(init);
      assert Elements(s) == Elements(init) + {s[|s| - 1]};
      assert s[|s| - 1] !in Elements(init);
    }
  }

  /** Removing a set of positions, all inside s, shortens s by the size of the set. */
  lemma {:induction false} WithoutCount<T>(s: seq<T>, gone: set<nat>)
    requires forall i :: i in gone ==> i < |s|
    ensures |Without(s, gone)| == |s| - |gone|
  {
    if s == [] {
      assert gone == {};
    } else {
      var n := |s| - 1;
      var rest := gone - {n};
      assert Without(s[..n], gone) == Without(s[..n], rest) by {
        WithoutIgnoresBeyond(s[..n], gone, rest);
      }
      WithoutCount(s[..n], rest);
      if n in gone {
        assert gone == rest + {n};
      } else {
        assert gone == rest;
      }
    }
  }

  /** Only the positions inside s matter to Without. */
  lemma {:induction false} WithoutIgnoresBeyond<T>(s: seq<T>, a: set<nat>, b: set<nat>)
    requires forall i :: 0 <= i < |s| ==> (i in a <==> i in b)
    ensures Without(s, a) == Without(s, b)
  {
    if s != [] {
      WithoutIgnoresBeyond(s[..|s| - 1], a, b);
    }
  }

  /** A collision pass removes exactly one bullet per dictionary entry and
      exactly TotalHits(hits) aliens, the number the score is paid for. */
  lemma CollisionCounts<B, A>(hits: seq<Hit>, bullets: seq<B>, aliens: seq<A>)
    requires WellFormed(hits, |bullets|, |aliens|)
    ensures |Without(bullets, Elements(HitBullets(hits)))| == |bullets| - |hits|
    ensures |Without(aliens, Elements(StruckAliens(hits)))| == |aliens| - TotalHits(hits)
  {
    DistinctElements(HitBullets(hits));
    WithoutCount(bullets, Elements(HitBullets(hits)));
    DistinctElements(StruckAliens(hits));
    WithoutCount(aliens, Elements(StruckAliens(hits)));
    TotalHitsCountsAliens(hits);
  }
}
