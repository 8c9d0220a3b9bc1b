/** Comments on an issue: any signed-in user adds one, and reads an issue's comments oldest first. */
module CommentController {
  import opened Optional
  import opened Http
  import opened Listing
  import opened Db

  /** The inserted row with `(SELECT name FROM users WHERE id = $2) as author_name`: NULL when no such user. */
  datatype NewCommentView = NewCommentView(comment: Comment, authorName: Option<string>)

  /**
   * `addComment`: the issue comes from the path and the author from the caller's token, never from
   * the body; one row is appended and answered with 201 and the author's name.
   */
  method AddComment(db: Database, caller: Identity, issueId: int, content: string) returns (r: Result<NewCommentView>)
    requires db.Valid()
    modifies db`comments
    ensures db.Valid()
    ensures var c := Comment(|old(db.comments)| + 1, issueId, caller.id, content);
            db.comments == old(db.comments) + [c] && r == Ok(Created, NewCommentView(c, NameOf(db.users, caller.id)))
  {
    var c := Comment(|db.comments| + 1, issueId, caller.id, content);
    db.comments := db.comments + [c];
    r := Ok(Created, NewCommentView(c, NameOf(db.users, caller.id)));
  }

  /** A comment row with `u.name as author_name, u.role as author_role` from the inner join. */
  datatype CommentView = CommentView(comment: Comment, authorName: string, authorRole: string)

  function OnIssueByKnownUser(users: seq<User>, issueId: int): Comment -> bool {
    (c: Comment) => c.issueId == issueId && UserById(users, c.userId).Some?
  }

  /** The rows of `getCommentsByIssueId`: that issue's comments whose author has a user row, oldest first. */
  function IssueComments(users: seq<User>, comments: seq<Comment>, issueId: int): (rows: seq<Comment>)
    requires Increasing(comments, CommentId)
    ensures forall c :: c in rows <==> c in comments && c.issueId == issueId && UserById(users, c.userId).Some?
    ensures Increasing(rows, CommentId)
  {
    OldestFirst(comments, OnIssueByKnownUser(users, issueId), CommentId)
  }

  /** `getCommentsByIssueId`: each of those comments with its author's name and role. */
  function CommentsByIssueId(users: seq<User>, comments: seq<Comment>, issueId: int): (r: seq<CommentView>)
    requires Increasing(comments, CommentId)
    ensures |r| == |IssueComments(users, comments, issueId)|
    ensures forall k :: 0 <= k < |r| ==>
              var c := IssueComments(users, comments, issueId)[k];
              && UserById(users, c.userId).Some? && r[k].comment == c
              && r[k].authorName == UserById(users, c.userId).value.name
              && r[k].authorRole == UserById(users, c.userId).value.role
  {
    var rows := IssueComments(users, comments, issueId);
    forall k | 0 <= k < |rows| ensures UserById(users, rows[k].userId).Some? {
      assert rows[k] in rows;
    }
    seq(|rows|, k requires 0 <= k < |rows| =>
      var u := UserById(users, rows[k].userId).value;
      CommentView(rows[k], u.name, u.role))
  }

  /**
   * A comment added by a user who has a user row appears last in its issue's thread, after the
   * earlier comments in their order; other issues' threads are unchanged.
   */
  lemma {:induction false} AddedCommentComesLast(users: seq<User>, comments: seq<Comment>, c: Comment, issueId: int)
    requires Increasing(comments + [c], CommentId)
    requires UserById(users, c.userId).Some?
    ensures Increasing(comments, CommentId)
    ensures IssueComments(users, comments + [c], issueId)
         == IssueComments(users, comments, issueId) + (if c.issueId == issueId then [c] else [])
  {
    assert forall i, j :: 0 <= i < j < |comments| ==> comments[i] == (comments + [c])[i] && comments[j] == (comments + [c])[j];
    SelectAppend(comments, [c], OnIssueByKnownUser(users, issueId));
    assert [c][1..] == [];
  }
}
