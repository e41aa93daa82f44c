/** The post board shared by the course and location detail pages: the
    relative age of a post, the split into temporary and permanent posts,
    the empty-board message, the fun-facts default and the submit guard
    with the form reset that follows a successful post. */
module PostBoard {
  import opened Common
  import opened Strings

  // ------------------------------------------------------------ post age

  datatype Unit = Seconds | Minutes | Hours | Days

  function UnitSize(u: Unit): (r: nat)
    ensures r > 0
  {
    match u
    case Seconds => 1
    case Minutes => 60
    case Hours => 3600
    case Days => 86400
  }

  function Suffix(u: Unit): string
  {
    match u
    case Seconds => "s ago"
    case Minutes => "m ago"
    case Hours => "h ago"
    case Days => "d ago"
  }

  function Rank(u: Unit): nat
  {
    match u
    case Seconds => 0
    case Minutes => 1
    case Hours => 2
    case Days => 3
  }

  /** The whole seconds between two instants given in milliseconds,
      rounded down (`Math.floor((now - posted) / 1000)`); Dafny's division
      by a positive number already rounds down. */
  function ElapsedSeconds(nowMs: int, postedMs: int): (r: int)
    ensures 1000 * r <= nowMs - postedMs < 1000 * r + 1000
  {
    (nowMs - postedMs) / 1000
  }

  /** The bucket of an age in seconds and the count shown: under a minute
      the seconds themselves (even a negative age), then whole minutes
      under an hour, whole hours under a day, and whole days. */
  function Bucket(diff: int): (r: (int, Unit))
    ensures r.1 == Seconds <==> diff < 60
    ensures r.1 == Minutes <==> 60 <= diff < 3600
    ensures r.1 == Hours <==> 3600 <= diff < 86400
    ensures r.1 == Days <==> 86400 <= diff
    ensures r.1 == Seconds ==> r.0 == diff
    ensures r.1 != Seconds ==> 1 <= r.0 && r.0 * UnitSize(r.1) <= diff < (r.0 + 1) * UnitSize(r.1)
    ensures r.1 == Minutes ==> r.0 < 60
    ensures r.1 == Hours ==> r.0 < 24
  {
    if diff < 60 then (diff, Seconds)
    else if diff < 3600 then (diff / 60, Minutes)
    else if diff < 86400 then (diff / 3600, Hours)
    else (diff / 86400, Days)
  }

  /** `getTimeAgo`: the count of the bucket followed by its unit letter. */
  function TimeAgo(nowMs: int, postedMs: int): (r: string)
    ensures var b := Bucket(ElapsedSeconds(nowMs, postedMs)); r == IntToString(b.0) + Suffix(b.1)
  {
    var diff := ElapsedSeconds(nowMs, postedMs);
    if diff < 60 then IntToString(diff) + "s ago"
    else if diff < 3600 then IntToString(diff / 60) + "m ago"
    else if diff < 86400 then IntToString(diff / 3600) + "h ago"
    else IntToString(diff / 86400) + "d ago"
  }

  /** An older post never shows a smaller unit. */
  lemma BucketMonotone(d1: int, d2: int)
    requires d1 <= d2
    ensures Rank(Bucket(d1).1) <= Rank(Bucket(d2).1)
    ensures Bucket(d1).1 == Bucket(d2).1 ==> Bucket(d1).0 <= Bucket(d2).0
  {
    var b1, b2 := Bucket(d1), Bucket(d2);
    if b1.1 == b2.1 && b1.1 != Seconds {
      CountFromBounds(b1.0, b2.0 + 1, UnitSize(b1.1));
    }
  }

  lemma CountFromBounds(a: int, b: int, u: int)
    requires u > 0 && a * u < b * u
    ensures a < b
  {
    assert (b - a) * u == b * u - a * u;
  }

  /** The unit changes exactly at 60, 3600 and 86400 seconds: 59 gives
      "59s ago", 60 gives "1m ago", 3600 gives "1h ago", 86400 "1d ago". */
  lemma BucketBoundaries()
    ensures Bucket(59) == (59, Seconds)
    ensures Bucket(60) == (1, Minutes) && Bucket(3599) == (59, Minutes)
    ensures Bucket(3600) == (1, Hours) && Bucket(86399) == (23, Hours)
    ensures Bucket(86400) == (1, Days)
  {
  }

  /** A post made exactly a minute before now reads "1m ago". */
  lemma OneMinuteAgo(nowMs: int, postedMs: int)
    requires nowMs - postedMs == 60000
    ensures TimeAgo(nowMs, postedMs) == "1m ago"
  {
    assert ElapsedSeconds(nowMs, postedMs) == 60;
    assert NatToString(1) == "1";
  }

  /** A post made 59.999 seconds before now reads "59s ago". */
  lemma FiftyNineSecondsAgo(nowMs: int, postedMs: int)
    requires nowMs - postedMs == 59999
    ensures TimeAgo(nowMs, postedMs) == "59s ago"
  {
    assert ElapsedSeconds(nowMs, postedMs) == 59;
    assert NatToString(59) == NatToString(5) + [DigitChar(9)];
  }

  // ---------------------------------------------------------------- posts

  /** A post as the page receives it; `postType` is the server's text. */
  datatype Post = Post(id: int, content: string, postType: string, createdAt: int)

  function OfType(t: string): Post -> bool
  {
    (p: Post) => p.postType == t
  }

  /** The posts of one type, in server order: the page shows those of type
      "temporary" and those of type "permanent" as its two lists. */
  function PostsOfType(posts: seq<Post>, t: string): (r: seq<Post>)
    ensures forall p :: p in r <==> p in posts && p.postType == t
  {
    Filter(posts, OfType(t))
  }

  /** No post is in both lists, and a post of any other type is in
      neither. */
  lemma SplitDisjoint(posts: seq<Post>, p: Post)
    ensures !(p in PostsOfType(posts, "temporary") && p in PostsOfType(posts, "permanent"))
    ensures p.postType != "temporary" && p.postType != "permanent" ==>
              p !in PostsOfType(posts, "temporary") && p !in PostsOfType(posts, "permanent")
  {
  }

  /** Both lists keep server order: the lists of a concatenation are the
      concatenations of the lists. */
  lemma SplitKeepsOrder(a: seq<Post>, b: seq<Post>)
    ensures PostsOfType(a + b, "temporary") == PostsOfType(a, "temporary") + PostsOfType(b, "temporary")
    ensures PostsOfType(a + b, "permanent") == PostsOfType(a, "permanent") + PostsOfType(b, "permanent")
  {
    FilterAppend(a, b, OfType("temporary"));
    FilterAppend(a, b, OfType("permanent"));
  }

  predicate Shown(p: Post)
  {
    p.postType == "temporary" || p.postType == "permanent"
  }

  /** The two lists together hold at most every post, and exactly every
      post when each has one of the two types. */
  lemma SplitCount(posts: seq<Post>)
    ensures |PostsOfType(posts, "temporary")| + |PostsOfType(posts, "permanent")| <= |posts|
    ensures (|PostsOfType(posts, "temporary")| + |PostsOfType(posts, "permanent")| == |posts|)
            <==> forall i :: 0 <= i < |posts| ==> Shown(posts[i])
  {
    FilterPairCount(posts, OfType("temporary"), OfType("permanent"));
  }

  /** The "No posts yet" message shows when both lists are empty. */
  predicate EmptyBoard(posts: seq<Post>)
  {
    |PostsOfType(posts, "temporary")| == 0 && |PostsOfType(posts, "permanent")| == 0
  }

  /** The message shows exactly when no post is temporary or permanent. */
  lemma EmptyBoardIff(posts: seq<Post>)
    ensures EmptyBoard(posts) <==> forall i :: 0 <= i < |posts| ==> !Shown(posts[i])
  {
    if !EmptyBoard(posts) {
      var t, q := PostsOfType(posts, "temporary"), PostsOfType(posts, "permanent");
      if |t| > 0 {
        assert t[0] in posts;
      } else {
        assert q[0] in posts;
      }
    }
  }

  // ------------------------------------------------------------ fun facts

  /** The location's fun facts: none when the field is missing or empty,
      otherwise the list the given JSON reader finds in it. */
  function FunFacts(funFacts: Option<string>, parseJson: string -> seq<string>): (r: seq<string>)
    ensures funFacts.None? || funFacts == Some("") ==> r == []
    ensures funFacts.Some? && funFacts.value != "" ==> r == parseJson(funFacts.value)
  {
    if funFacts.None? || funFacts.value == "" then [] else parseJson(funFacts.value)
  }

  // --------------------------------------------------------------- submit

  /** The post form's state cells. */
  datatype PostForm = PostForm(content: string, postType: string, showForm: bool)

  /** How the post request ends: accepted, answered with an error status,
      or failed in the network. */
  datatype Outcome = Accepted | Refused | Failed

  /** The two pages that carry a post board: a course's and a location's.
      They word their success alerts differently. */
  datatype Board = CourseBoard | LocationBoard

  const GuestPostMessage := "Guests cannot post. Please create an account!"
  const PostFailedMessage := "Failed to submit post. Please try again."

  /** The alert after an accepted temporary post. */
  function PostedMessage(board: Board): string
  {
    match board
    case CourseBoard => "\U{2705} Review posted! It will disappear in 3 hours."
    case LocationBoard => "\U{2705} Post submitted! It will disappear in 3 hours."
  }

  /** The alert after an accepted post of any other type. */
  function ApprovalMessage(board: Board): string
  {
    match board
    case CourseBoard => "\U{2705} Review submitted for admin approval!"
    case LocationBoard => "\U{2705} Post submitted for admin approval!"
  }

  datatype SubmitEffect = SubmitEffect(form: PostForm, requested: bool, refetched: bool, alert: Option<string>)

  /** `handleSubmitPost`: a guest is stopped before any request; an
      accepted post clears the text and hides the form whatever its type,
      and the posts are reloaded only for a temporary one (a permanent one
      waits for approval); a refused or failed post leaves the form. The
      alert names the outcome; a refused post shows none. */
  function SubmitPost(board: Board, form: PostForm, role: string, outcome: Outcome): (r: SubmitEffect)
    ensures r.requested <==> role != "guest"
    ensures role == "guest" ==> r.form == form && !r.refetched && r.alert == Some(GuestPostMessage)
    ensures role != "guest" && outcome == Accepted ==>
              r.form == PostForm("", form.postType, false) && (r.refetched <==> form.postType == "temporary")
              && r.alert == Some(if form.postType == "temporary" then PostedMessage(board) else ApprovalMessage(board))
    ensures outcome != Accepted ==> r.form == form && !r.refetched
    ensures role != "guest" && outcome == Refused ==> r.alert.None?
    ensures role != "guest" && outcome == Failed ==> r.alert == Some(PostFailedMessage)
  {
    if role == "guest" then SubmitEffect(form, false, false, Some(GuestPostMessage))
    else match outcome
      case Accepted =>
        var alert := if form.postType == "temporary" then PostedMessage(board) else ApprovalMessage(board);
        SubmitEffect(form.(content := "", showForm := false), true, form.postType == "temporary", Some(alert))
      case Refused => SubmitEffect(form, true, false, None)
      case Failed => SubmitEffect(form, true, false, Some(PostFailedMessage))
  }

  /** The two alerts after an accepted post differ on each page, so the
      alert tells the poster whether the post is already visible. */
  lemma AcceptedAlertTellsType(board: Board, form: PostForm, role: string)
    requires role != "guest"
    ensures var other := form.(postType := if form.postType == "temporary" then "permanent" else "temporary");
            SubmitPost(board, form, role, Accepted).alert != SubmitPost(board, other, role, Accepted).alert
  {
    match board
    case CourseBoard => assert PostedMessage(board)[9] != ApprovalMessage(board)[9];
    case LocationBoard => assert PostedMessage(board)[17] != ApprovalMessage(board)[17];
  }
}
