/**
 * The reactions questions and answers carry: arrays of user ids that
 * liked, disliked or saved the document, changed only through the
 * database's set operators. A like adds the user to the likes and pulls
 * them from the dislikes; a dislike is its mirror image; save and unsave
 * add to and pull from the savers.
 */
module Reactions {
  import opened Wrappers
  import opened Store

  /** The likes and dislikes of a document. */
  datatype Opinions = Opinions(likes: IdArray, dislikes: IdArray)

  /** `{$addToSet: {likes: u}, $pull: {dislikes: u}}`. */
  function Like(o: Opinions, u: ObjectId): (r: Opinions)
    ensures u in Elements(r.likes) && u !in Elements(r.dislikes)
    ensures forall v :: v != u ==>
              (v in Elements(r.likes) <==> v in Elements(o.likes)) && (v in Elements(r.dislikes) <==> v in Elements(o.dislikes))
  {
    Opinions(AddToSet(o.likes, u), Pull(o.dislikes, u))
  }

  /** `{$addToSet: {dislikes: u}, $pull: {likes: u}}`. */
  function Dislike(o: Opinions, u: ObjectId): (r: Opinions)
    ensures u in Elements(r.dislikes) && u !in Elements(r.likes)
    ensures forall v :: v != u ==>
              (v in Elements(r.likes) <==> v in Elements(o.likes)) && (v in Elements(r.dislikes) <==> v in Elements(o.dislikes))
  {
    Opinions(Pull(o.likes, u), AddToSet(o.dislikes, u))
  }

  /** `{$addToSet: {saved_by: u}}`. */
  function Save(a: IdArray, u: ObjectId): (r: IdArray)
    ensures forall v :: v in Elements(r) <==> v == u || v in Elements(a)
  {
    AddToSet(a, u)
  }

  /** `{$pull: {saved_by: u}}`. */
  function Unsave(a: IdArray, u: ObjectId): (r: IdArray)
    ensures forall v :: v in Elements(r) <==> v != u && v in Elements(a)
  {
    Pull(a, u)
  }

  function Swap(o: Opinions): Opinions
  {
    Opinions(o.dislikes, o.likes)
  }

  /** No user both likes and dislikes the document. */
  predicate Exclusive(o: Opinions)
  {
    forall v :: !(v in Elements(o.likes) && v in Elements(o.dislikes))
  }

  /** Each array holds a user at most once and no user is on both sides. */
  predicate WellFormed(o: Opinions)
  {
    Distinct(Elements(o.likes)) && Distinct(Elements(o.dislikes)) && Exclusive(o)
  }

  /** A dislike is a like with the two arrays exchanged. */
  lemma DislikeMirrorsLike(o: Opinions, u: ObjectId)
    ensures Dislike(o, u) == Swap(Like(Swap(o), u))
  {
  }

  /** Liking or disliking twice is liking or disliking once; saving and
      unsaving twice are saving and unsaving once. */
  lemma ReactionsIdempotent(o: Opinions, a: IdArray, u: ObjectId)
    ensures Like(Like(o, u), u) == Like(o, u)
    ensures Dislike(Dislike(o, u), u) == Dislike(o, u)
    ensures Save(Save(a, u), u) == Save(a, u)
    ensures Unsave(Unsave(a, u), u) == Unsave(a, u)
  {
    PullTwice(o.dislikes, u);
    PullTwice(o.likes, u);
    PullTwice(a, u);
  }

  lemma PullTwice(a: IdArray, u: ObjectId)
    ensures Pull(Pull(a, u), u) == Pull(a, u)
  {
    if a.Some? {
      assert u !in Remove(a.value, u);
    }
  }

  /** Likes and dislikes keep every array free of repeats and keep the two
      sides apart, whoever reacts. */
  lemma ReactionsKeepWellFormed(o: Opinions, u: ObjectId)
    requires WellFormed(o)
    ensures WellFormed(Like(o, u))
    ensures WellFormed(Dislike(o, u))
  {
    ArrayOperatorsKeepDistinct(o.likes, u);
    ArrayOperatorsKeepDistinct(o.dislikes, u);
  }

  /** On well-formed opinions a like adds one like unless the user already
      liked, and takes one dislike away exactly when the user had
      disliked. */
  lemma LikeCounts(o: Opinions, u: ObjectId)
    requires WellFormed(o)
    ensures Size(Like(o, u).likes) == Size(o.likes) + (if u in Elements(o.likes) then 0 else 1)
    ensures Size(Like(o, u).dislikes) == Size(o.dislikes) - (if u in Elements(o.dislikes) then 1 else 0)
    ensures u in Elements(o.likes) ==> u !in Elements(o.dislikes)
  {
    if o.dislikes.Some? {
      RemoveDistinctSize(o.dislikes.value, u);
    }
  }

  /** A dislike counts as the mirror image of a like. */
  lemma DislikeCounts(o: Opinions, u: ObjectId)
    requires WellFormed(o)
    ensures Size(Dislike(o, u).dislikes) == Size(o.dislikes) + (if u in Elements(o.dislikes) then 0 else 1)
    ensures Size(Dislike(o, u).likes) == Size(o.likes) - (if u in Elements(o.likes) then 1 else 0)
  {
    DislikeMirrorsLike(o, u);
    LikeCounts(Swap(o), u);
  }
}
