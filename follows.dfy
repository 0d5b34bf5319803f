/** The relationship engine: follow edges, the check `profile_follow` and
    `profile_unfollow` make before touching the table, and what those two
    views do to the table. */
module Follows {
  import opened Seqs
  import opened Models

  /** `Follow.objects.filter(author=author, user=user).exists()`. */
  predicate IsFollowing(follows: seq<Follow>, user: UserId, author: UserId) {
    exists e :: e in follows && e.user == user && e.author == author
  }

  /** The follow relation as a set of (follower, followed) pairs. */
  function Edges(follows: seq<Follow>): set<(UserId, UserId)> {
    set e | e in follows :: (e.user, e.author)
  }

  /** The authors `user` follows. */
  function FollowedAuthors(follows: seq<Follow>, user: UserId): set<UserId> {
    set e | e in follows && e.user == user :: e.author
  }

  /** No user follows themselves. The schema does not forbid it; only the
      follow view refuses to create such a row. */
  ghost predicate NoSelfFollow(follows: seq<Follow>) {
    forall e :: e in follows ==> e.user != e.author
  }

  /** The follow table that `profile_follow` leaves behind: a new row with id
      `id` unless `user == author` or the pair is already present. */
  function AddFollow(follows: seq<Follow>, id: FollowId, user: UserId, author: UserId): seq<Follow> {
    if user != author && !IsFollowing(follows, user, author) then follows + [Follow(id, user, author)]
    else follows
  }

  function NotPair(user: UserId, author: UserId): Follow -> bool {
    (e: Follow) => !(e.user == user && e.author == author)
  }

  /** The follow table that `profile_unfollow` leaves behind: every row for
      the pair is deleted, provided `user != author` and such a row exists. */
  function RemoveFollow(follows: seq<Follow>, user: UserId, author: UserId): seq<Follow> {
    if user != author && IsFollowing(follows, user, author) then Filter(follows, NotPair(user, author))
    else follows
  }

  lemma FollowingIsEdge(follows: seq<Follow>, user: UserId, author: UserId)
    ensures IsFollowing(follows, user, author) <==> (user, author) in Edges(follows)
    ensures IsFollowing(follows, user, author) <==> author in FollowedAuthors(follows, user)
  {
    if (user, author) in Edges(follows) {
      var e :| e in follows && (e.user, e.author) == (user, author);
    }
    if author in FollowedAuthors(follows, user) {
      var e :| e in follows && e.user == user && e.author == author;
    }
  }

  lemma FollowedAuthorsMeaning(follows: seq<Follow>, user: UserId)
    ensures forall a :: IsFollowing(follows, user, a) <==> a in FollowedAuthors(follows, user)
  {
    forall a ensures IsFollowing(follows, user, a) <==> a in FollowedAuthors(follows, user) {
      FollowingIsEdge(follows, user, a);
    }
  }

  /** Following oneself changes nothing. */
  lemma FollowSelfIsNoOp(follows: seq<Follow>, id: FollowId, user: UserId)
    ensures AddFollow(follows, id, user, user) == follows
  {
  }

  /** After a follow, the relation is the old one plus the pair, unless the pair is a self-follow. */
  lemma FollowEdges(follows: seq<Follow>, id: FollowId, user: UserId, author: UserId)
    ensures Edges(AddFollow(follows, id, user, author)) ==
      Edges(follows) + (if user != author then {(user, author)} else {})
  {
    var r := AddFollow(follows, id, user, author);
    if user != author {
      if IsFollowing(follows, user, author) {
        FollowingIsEdge(follows, user, author);
      } else {
        assert Follow(id, user, author) in r;
        assert Edges(r) == Edges(follows) + {(user, author)} by {
          forall p | p in Edges(r) ensures p in Edges(follows) + {(user, author)} {
            var e :| e in r && (e.user, e.author) == p;
            if e != Follow(id, user, author) {
              assert e in follows;
            }
          }
        }
      }
    }
  }

  /** Following twice leaves the same table as following once. */
  lemma FollowIdempotent(follows: seq<Follow>, id1: FollowId, id2: FollowId, user: UserId, author: UserId)
    ensures AddFollow(AddFollow(follows, id1, user, author), id2, user, author) ==
      AddFollow(follows, id1, user, author)
  {
    var once := AddFollow(follows, id1, user, author);
    if user != author && !IsFollowing(follows, user, author) {
      assert Follow(id1, user, author) in once;
      assert IsFollowing(once, user, author);
    }
  }

  /** A follow keeps the table free of self-follows and duplicate pairs, with
      increasing ids, provided the new id is larger than every old one. */
  lemma FollowKeepsInvariant(follows: seq<Follow>, id: FollowId, user: UserId, author: UserId)
    requires NoSelfFollow(follows) && UniqueFollowPairs(follows) && Ascending(follows, FollowKey)
    requires forall e :: e in follows ==> e.id < id
    ensures var r := AddFollow(follows, id, user, author);
      NoSelfFollow(r) && UniqueFollowPairs(r) && Ascending(r, FollowKey)
  {
    var r := AddFollow(follows, id, user, author);
    if user != author && !IsFollowing(follows, user, author) {
      forall i, j | 0 <= i < j < |r| ensures FollowKey(r[i]) < FollowKey(r[j]) {
        if j == |follows| {
          assert r[i] == follows[i] && follows[i] in follows;
        } else {
          assert r[i] == follows[i] && r[j] == follows[j];
        }
      }
    }
  }

  /** After an unfollow, exactly the pair is gone from the relation. The
      self-follow guard of the view is redundant because no self-follow exists. */
  lemma UnfollowEdges(follows: seq<Follow>, user: UserId, author: UserId)
    requires NoSelfFollow(follows)
    ensures Edges(RemoveFollow(follows, user, author)) == Edges(follows) - {(user, author)}
  {
    var r := RemoveFollow(follows, user, author);
    if user != author && IsFollowing(follows, user, author) {
      forall p | p in Edges(follows) - {(user, author)} ensures p in Edges(r) {
        var e :| e in follows && (e.user, e.author) == p;
        assert e in r;
      }
      forall p | p in Edges(r) ensures p in Edges(follows) - {(user, author)} {
        var e :| e in r && (e.user, e.author) == p;
      }
    } else {
      FollowingIsEdge(follows, user, author);
    }
  }

  /** An unfollow keeps every other row and only removes rows. */
  lemma UnfollowKeepsOthers(follows: seq<Follow>, user: UserId, author: UserId)
    ensures forall e :: e in RemoveFollow(follows, user, author) ==> e in follows
    ensures forall e :: e in follows && !(e.user == user && e.author == author) ==>
      e in RemoveFollow(follows, user, author)
    ensures user != author ==> !IsFollowing(RemoveFollow(follows, user, author), user, author)
  {
  }

  /** An unfollow keeps the table's invariants. */
  lemma UnfollowKeepsInvariant(follows: seq<Follow>, user: UserId, author: UserId)
    requires NoSelfFollow(follows) && UniqueFollowPairs(follows) && Ascending(follows, FollowKey)
    ensures var r := RemoveFollow(follows, user, author);
      NoSelfFollow(r) && UniqueFollowPairs(r) && Ascending(r, FollowKey)
  {
    FilterAscending(follows, NotPair(user, author), FollowKey);
  }
}
