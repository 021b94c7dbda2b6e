/**
 * Role classification: which slide is the active (full-size) slide,
 * which are thumbnails in which slot, and which are hidden.
 */
module Roles {
  import opened SequenceRing

  datatype Role = Active | Thumbnail(slot: nat) | Hidden

  /**
   * The role updatePosterStates gives slide `k` (scripts.js:484-495),
   * including the responsive bound that handleThumbnailPoster applies
   * afterwards (scripts.js:579-582): the slide equal to the ring's front
   * is active; otherwise its slot is its position in the rest of the ring
   * (`restIndices.indexOf`), and it is a thumbnail only while that slot is
   * below both MAX_VISIBLE_THUMBS and the layout's maxThumbs.
   */
  function RoleAt(ring: seq<nat>, k: nat, maxVisible: int, maxThumbs: int): (r: Role)
    requires |ring| > 0
    ensures r == Active <==> k == ring[0]
    ensures r.Thumbnail? ==> r.slot + 1 < |ring| && ring[r.slot + 1] == k && r.slot < maxVisible && r.slot < maxThumbs
  {
    if k == ring[0] then Active
    else if k in ring[1..] then
      var slot := IndexOf(ring[1..], k);
      if slot < maxVisible && slot < maxThumbs then Thumbnail(slot) else Hidden
    else Hidden
  }

  /** The role of ring position `p`: the front is active, the next slots are thumbnails, the rest hidden. */
  function RoleOfPosition(p: nat, maxVisible: int, maxThumbs: int): Role
  {
    if p == 0 then Active
    else if p - 1 < maxVisible && p - 1 < maxThumbs then Thumbnail(p - 1)
    else Hidden
  }

  /** How many thumbnail slots a ring of n slides fills. */
  function StripLength(n: nat, maxVisible: int, maxThumbs: int): (m: nat)
    requires 0 < n
    ensures m < n
    ensures m <= maxVisible || m == 0
    ensures m <= maxThumbs || m == 0
  {
    var bound := if maxVisible < maxThumbs then maxVisible else maxThumbs;
    if bound <= 0 then 0 else if n - 1 < bound then n - 1 else bound
  }

  /**
   * The per-slide classification agrees with the by-position one: the slide
   * at ring position p gets RoleOfPosition(p).
   */
  lemma RolesFollowPositions(ring: seq<nat>, n: nat, maxVisible: int, maxThumbs: int, p: nat)
    requires IsPermutation(ring, n) && p < n
    ensures RoleAt(ring, ring[p], maxVisible, maxThumbs) == RoleOfPosition(p, maxVisible, maxThumbs)
  {
    if p > 0 {
      assert ring[p] != ring[0];
      var rest := ring[1..];
      assert rest[p - 1] == ring[p];
      IndexOfDistinct(rest, p - 1);
    }
  }

  /**
   * Exactly one slide is active, the ring's front; the thumbnails are
   * exactly the slides at positions 1..m with m = StripLength, slot p-1
   * for position p, so there are never more than MAX_VISIBLE_THUMBS or
   * maxThumbs of them; every other slide is hidden.
   */
  lemma ThumbnailStrip(ring: seq<nat>, n: nat, maxVisible: int, maxThumbs: int)
    requires IsPermutation(ring, n) && 0 < n
    ensures forall p :: 0 <= p < n ==>
      (RoleAt(ring, ring[p], maxVisible, maxThumbs) == Active <==> p == 0)
    ensures forall p :: 0 <= p < n ==>
      (RoleAt(ring, ring[p], maxVisible, maxThumbs).Thumbnail? <==> 1 <= p <= StripLength(n, maxVisible, maxThumbs))
    ensures forall p :: 0 <= p < n && RoleAt(ring, ring[p], maxVisible, maxThumbs).Thumbnail? ==>
      RoleAt(ring, ring[p], maxVisible, maxThumbs).slot == p - 1
    ensures forall p :: 0 <= p < n ==>
      (RoleAt(ring, ring[p], maxVisible, maxThumbs) == Hidden <==> StripLength(n, maxVisible, maxThumbs) < p)
  {
    forall p | 0 <= p < n
      ensures RoleAt(ring, ring[p], maxVisible, maxThumbs) == RoleOfPosition(p, maxVisible, maxThumbs)
    {
      RolesFollowPositions(ring, n, maxVisible, maxThumbs, p);
    }
  }

  /** Two different slides never share a role other than Hidden (one active slide, one slide per slot). */
  lemma {:induction false} RolesAreExclusive(ring: seq<nat>, n: nat, maxVisible: int, maxThumbs: int, p: nat, q: nat)
    requires IsPermutation(ring, n) && p < n && q < n && p != q
    requires RoleAt(ring, ring[p], maxVisible, maxThumbs) == RoleAt(ring, ring[q], maxVisible, maxThumbs)
    ensures RoleAt(ring, ring[p], maxVisible, maxThumbs) == Hidden
  {
    RolesFollowPositions(ring, n, maxVisible, maxThumbs, p);
    RolesFollowPositions(ring, n, maxVisible, maxThumbs, q);
  }

  /** Four slides, ring [0, 1, 2, 3], two thumbnails allowed: 0 active, 1 and 2 in slots 0 and 1, 3 hidden. */
  lemma FourSlidesTwoThumbs()
    ensures RoleAt([0, 1, 2, 3], 0, 4, 2) == Active
    ensures RoleAt([0, 1, 2, 3], 1, 4, 2) == Thumbnail(0)
    ensures RoleAt([0, 1, 2, 3], 2, 4, 2) == Thumbnail(1)
    ensures RoleAt([0, 1, 2, 3], 3, 4, 2) == Hidden
  {
    var ring: seq<nat> := [0, 1, 2, 3];
    assert ring[1..] == [1, 2, 3];
    assert ring[1..][0] == 1 && ring[1..][1] == 2 && ring[1..][2] == 3;
  }
}
