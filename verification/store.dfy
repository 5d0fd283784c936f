/**
 * The in-memory stand-in for the server's database and HTTP plumbing:
 * object ids as the driver parses them, the filter comparison of BSON
 * values, the array operators `$addToSet`, `$pull` and `$size`, and the
 * shape of a handler's JSON response.
 */
module Store {
  import opened Wrappers
  import opened Text

  const StatusOK := 200
  const StatusCreated := 201
  const StatusBadRequest := 400
  const StatusUnauthorized := 401
  const StatusForbidden := 403
  const StatusNotFound := 404
  const StatusServerError := 500

  /** A handler's answer: a status with a value, or a status with the
      `error` message. */
  datatype Response<T> = Ok(status: int, value: T) | Error(status: int, error: string)

  const NotAuthenticated := "User not authenticated"
  const InvalidUserId := "Invalid user ID"

  /** The request body as `ShouldBindJSON` left it. */
  datatype Body<T> = Bound(value: T) | Malformed(error: string)

  // ---------------------------------------------------------------------
  // Object ids
  // ---------------------------------------------------------------------

  predicate HexDigit(c: char)
  {
    '0' <= c <= '9' || 'a' <= c <= 'f' || 'A' <= c <= 'F'
  }

  predicate AllHex(s: string)
  {
    forall i :: 0 <= i < |s| ==> HexDigit(s[i])
  }

  /** A 12-byte object id, held as its 24 lower-case hex digits. */
  datatype ObjectId = ObjectId(hex: string)

  /** The form every parsed id takes. */
  predicate Canonical(id: ObjectId)
  {
    |id.hex| == 24 && AllHex(id.hex) && ToLower(id.hex) == id.hex
  }

  /** The all-zero id the driver returns beside a parse error. */
  const NilObjectId := ObjectId("000000000000000000000000")

  /** `primitive.ObjectIDFromHex`: exactly 24 hex digits of either case. */
  function ParseObjectId(s: string): (r: Option<ObjectId>)
    ensures r.Some? <==> |s| == 24 && AllHex(s)
    ensures r.Some? ==> Canonical(r.value)
  {
    if |s| == 24 && AllHex(s) then
      ToLowerIdempotent(s);
      Some(ObjectId(ToLower(s)))
    else None
  }

  /** An id's hex form parses back to the id, and the parse does not see
      case. */
  lemma ParseRoundTrip(id: ObjectId, s: string)
    requires Canonical(id)
    ensures ParseObjectId(id.hex) == Some(id)
    ensures ParseObjectId(ToLower(s)) == ParseObjectId(s)
  {
    if |s| == 24 && AllHex(s) {
      assert AllHex(ToLower(s));
    }
    if |ToLower(s)| == 24 && AllHex(ToLower(s)) {
      forall i | 0 <= i < |s| ensures HexDigit(s[i]) {
        assert HexDigit(ToLower(s)[i]);
      }
    }
    ToLowerIdempotent(s);
  }

  // ---------------------------------------------------------------------
  // Filters
  // ---------------------------------------------------------------------

  /** A BSON value as an equality filter sees it: a value of one type never
      equals a value of another, so an object id never equals its hex
      string. */
  datatype Bson = BString(s: string) | BObjectId(id: ObjectId)

  /** A filter `{field: query}` on a document holding `stored`. */
  predicate FieldMatches(stored: Bson, query: Bson)
  {
    stored == query
  }

  /** A string from the request context never selects an object-id field. */
  lemma StringNeverMatchesId(id: ObjectId, s: string)
    ensures !FieldMatches(BObjectId(id), BString(s))
  {
  }

  /** The first element satisfying `p`: what `FindOne` and `UpdateOne`
      act on in a collection kept in natural order. */
  function FirstWhere<T>(s: seq<T>, p: T -> bool): (r: Option<nat>)
    ensures r.Some? ==> r.value < |s| && p(s[r.value])
    ensures r.Some? ==> forall j :: 0 <= j < r.value ==> !p(s[j])
    ensures r.None? <==> forall j :: 0 <= j < |s| ==> !p(s[j])
  {
    if |s| == 0 then None
    else if p(s[0]) then Some(0)
    else
      match FirstWhere(s[1..], p)
      case None => None
      case Some(k) => Some(k + 1)
  }

  // ---------------------------------------------------------------------
  // The requesting user as the handlers use it
  // ---------------------------------------------------------------------

  /** The id a handler stores as a document's author: the context's user id
      parsed, or the nil id when it does not parse (the parse error is
      ignored). */
  function AuthorIdOf(user: string): ObjectId
  {
    ParseObjectId(user).GetOr(NilObjectId)
  }

  /** The user id the question and answer handlers act for: none in the
      context is 401, one that does not parse 500. */
  function RequesterId(user: Option<string>): (r: Response<ObjectId>)
    ensures r.Ok? <==> user.Some? && ParseObjectId(user.value).Some?
    ensures r.Ok? ==> r.value == ParseObjectId(user.value).value && r.value == AuthorIdOf(user.value)
    ensures user.None? ==> r == Error(StatusUnauthorized, NotAuthenticated)
    ensures user.Some? && r.Error? ==> r == Error(StatusServerError, InvalidUserId)
  {
    if user.None? then Error(StatusUnauthorized, NotAuthenticated)
    else match ParseObjectId(user.value)
      case None => Error(StatusServerError, InvalidUserId)
      case Some(id) => Ok(StatusOK, id)
  }

  /** The value the post and comment handlers put in their `author_id`
      owner filter, as written: the context's user id, a string. */
  function OwnerQuery(user: string): Bson
  {
    BString(user)
  }

  /** The value it evidently should be: the id stored at creation. */
  function OwnerQueryCorrected(user: string): Bson
  {
    BObjectId(AuthorIdOf(user))
  }

  /** The author a document was created with always passes the corrected
      filter, and never the one as written. */
  lemma OwnerQueries(user: string)
    ensures FieldMatches(BObjectId(AuthorIdOf(user)), OwnerQueryCorrected(user))
    ensures forall id :: !FieldMatches(BObjectId(id), OwnerQuery(user))
  {
  }

  // ---------------------------------------------------------------------
  // Vote counters
  // ---------------------------------------------------------------------

  /** The vote counters of a post or a comment. */
  datatype Tally = Tally(upvotes: int, downvotes: int, score: int)

  const ZeroTally := Tally(0, 0, 0)

  predicate IsVoteType(voteType: string)
  {
    voteType == "upvote" || voteType == "downvote"
  }

  /** The `$inc` of one vote: an upvote adds one to upvotes and to score, a
      downvote one to downvotes and minus one to score. */
  function ApplyVote(t: Tally, voteType: string): (r: Tally)
    requires IsVoteType(voteType)
  {
    if voteType == "upvote" then t.(upvotes := t.upvotes + 1, score := t.score + 1)
    else t.(downvotes := t.downvotes + 1, score := t.score - 1)
  }

  /** Score equals upvotes minus downvotes. */
  predicate Balanced(t: Tally)
  {
    t.score == t.upvotes - t.downvotes
  }

  /** A zero tally is balanced and every vote keeps a tally balanced; an
      upvote and a downvote together leave the score where it was. */
  lemma VotesKeepBalance(t: Tally, voteType: string)
    requires IsVoteType(voteType)
    ensures Balanced(ZeroTally)
    ensures Balanced(t) ==> Balanced(ApplyVote(t, voteType))
    ensures ApplyVote(ApplyVote(t, "upvote"), "downvote").score == t.score
  {
  }

  /** Whose counters a vote broadcast is about, by the id as the request
      spelled it. */
  datatype VoteTarget = PostTarget(postId: string) | CommentTarget(commentId: string)

  /** The vote message the server broadcasts to every socket. */
  datatype VoteEvent = VoteEvent(target: VoteTarget, voteType: string, tally: Tally, userId: string)

  // ---------------------------------------------------------------------
  // Array fields
  // ---------------------------------------------------------------------

  /** An array field of ids; `None` when the document does not have it. */
  type IdArray = Option<seq<ObjectId>>

  function Elements(a: IdArray): seq<ObjectId>
  {
    if a.Some? then a.value else []
  }

  /** `$addToSet`: appends the id unless it is already there, creating the
      field if absent. */
  function AddToSet(a: IdArray, x: ObjectId): (r: IdArray)
    ensures r.Some? && x in r.value
    ensures forall y :: y in Elements(r) <==> y == x || y in Elements(a)
    ensures x in Elements(a) ==> r == a
  {
    if a.Some? && x in a.value then a else Some(Elements(a) + [x])
  }

  /** `$pull`: removes every occurrence of the id; a missing field stays
      missing. */
  function Pull(a: IdArray, x: ObjectId): (r: IdArray)
    ensures r.None? <==> a.None?
    ensures forall y :: y in Elements(r) <==> y != x && y in Elements(a)
    ensures |Elements(r)| <= |Elements(a)|
  {
    if a.None? then None else Some(Remove(a.value, x))
  }

  function Remove(s: seq<ObjectId>, x: ObjectId): (r: seq<ObjectId>)
    ensures forall y :: y in r <==> y != x && y in s
    ensures |r| <= |s|
    ensures x !in s ==> r == s
  {
    if |s| == 0 then []
    else
      assert s == [s[0]] + s[1..];
      (if s[0] == x then [] else [s[0]]) + Remove(s[1..], x)
  }

  /** `{$size: {$ifNull: [field, []]}}`, and Go's `len` of a nil slice:
      a missing array counts 0. */
  function Size(a: IdArray): (n: nat)
    ensures a.None? ==> n == 0
    ensures n == |Elements(a)|
  {
    if a.None? then 0 else |a.value|
  }

  predicate Distinct(s: seq<ObjectId>)
  {
    forall i, j :: 0 <= i < j < |s| ==> s[i] != s[j]
  }

  /** An array only ever changed by `$addToSet` and `$pull` holds each id
      at most once, so its size counts distinct users. */
  lemma {:induction false} ArrayOperatorsKeepDistinct(a: IdArray, x: ObjectId)
    requires Distinct(Elements(a))
    ensures Distinct(Elements(AddToSet(a, x)))
    ensures Distinct(Elements(Pull(a, x)))
  {
    var s := Elements(a);
    if x !in s {
      var t := s + [x];
      forall i, j | 0 <= i < j < |t| ensures t[i] != t[j] {
        if j == |s| {
          assert t[i] == s[i];
        }
      }
    }
    if a.Some? {
      RemoveKeepsDistinct(s, x);
    }
  }

  lemma {:induction false} RemoveKeepsDistinct(s: seq<ObjectId>, x: ObjectId)
    requires Distinct(s)
    ensures Distinct(Remove(s, x))
    decreases |s|
  {
    if |s| > 0 {
      DistinctTail(s);
      RemoveKeepsDistinct(s[1..], x);
      var t := Remove(s[1..], x);
      if s[0] != x {
        var r := [s[0]] + t;
        forall i, j | 0 <= i < j < |r| ensures r[i] != r[j] {
          if i == 0 {
            assert r[j] == t[j - 1] && t[j - 1] in t;
          } else {
            assert r[i] == t[i - 1] && r[j] == t[j - 1];
          }
        }
      }
    }
  }

  lemma DistinctTail(s: seq<ObjectId>)
    requires |s| > 0 && Distinct(s)
    ensures Distinct(s[1..]) && s[0] !in s[1..]
  {
    forall i, j | 0 <= i < j < |s[1..]| ensures s[1..][i] != s[1..][j] {
      assert s[1..][i] == s[i + 1] && s[1..][j] == s[j + 1];
    }
    forall k | 0 <= k < |s[1..]| ensures s[1..][k] != s[0] {
      assert s[1..][k] == s[k + 1];
    }
  }

  /** In an array holding each id once, `$pull` shortens it by one exactly
      when the id is there. */
  lemma {:induction false} RemoveDistinctSize(s: seq<ObjectId>, x: ObjectId)
    requires Distinct(s)
    ensures |Remove(s, x)| == |s| - (if x in s then 1 else 0)
    decreases |s|
  {
    if |s| > 0 {
      DistinctTail(s);
      RemoveDistinctSize(s[1..], x);
      assert x in s <==> x == s[0] || x in s[1..];
    }
  }
}
