/**
 * The review moderation page (src/app/admin/reviews/page.tsx): the status filter and the
 * request it sends, the moderation buttons each review offers, its status badge, and the
 * pending count shown on the "Pending" tab.
 */
module AdminReviews {
  import opened Types

  // ---------------------------------------------------------------------------
  // The status filter and the request

  /** The tab selected: one status, or every review. */
  datatype StatusFilter = OnlyStatus(status: ReviewStatus) | AllReviews

  /** The page opens on the pending reviews. */
  const InitialFilter: StatusFilter := OnlyStatus(Pending)

  const ReviewsPath: string := "/reviews"
  const StatusQuery: string := "?status="

  /** The path `fetchReviews` requests: no query for "all", `?status=<filter>` otherwise. */
  function FetchPath(filter: StatusFilter): (path: string)
    ensures path == ReviewsPath <==> filter == AllReviews
    ensures |path| >= |ReviewsPath| && path[..|ReviewsPath|] == ReviewsPath
    ensures filter.OnlyStatus? ==> path[|ReviewsPath|..] == StatusQuery + StatusName(filter.status)
  {
    match filter
    case AllReviews => ReviewsPath
    case OnlyStatus(status) => ReviewsPath + StatusQuery + StatusName(status)
  }

  /** What the server reads from the path: which filter was asked for, if any. */
  function ParseFetchPath(path: string): (r: Option<StatusFilter>)
  {
    if path == ReviewsPath then Some(AllReviews)
    else if |path| > |ReviewsPath| + |StatusQuery|
         && path[..|ReviewsPath| + |StatusQuery|] == ReviewsPath + StatusQuery
    then
      match ParseStatus(path[|ReviewsPath| + |StatusQuery|..])
      case Some(status) => Some(OnlyStatus(status))
      case None => None
    else None
  }

  /** Every filter's request names that filter: distinct tabs send distinct requests. */
  lemma FetchPathRoundTrip(filter: StatusFilter)
    ensures ParseFetchPath(FetchPath(filter)) == Some(filter)
  {
    match filter
    case AllReviews =>
    case OnlyStatus(status) =>
      var path := FetchPath(filter);
      var n := |ReviewsPath| + |StatusQuery|;
      assert path[..n] == ReviewsPath + StatusQuery;
      assert path[n..] == StatusName(status);
  }

  /** The first request of the page asks for the pending reviews. */
  lemma InitialFetchPath()
    ensures FetchPath(InitialFilter) == "/reviews?status=pending"
  {
  }

  // ---------------------------------------------------------------------------
  // The moderation buttons

  /** A button under a review: a status change sent to the server, or deletion. */
  datatype Action = SetStatus(caption: string, target: ReviewStatus) | Delete

  /**
   * The buttons `renderReview` shows for a review with the given status, left to right:
   * Approve and Reject for a pending review, Unapprove for an approved one, Approve for a
   * rejected one, and Delete for every review.
   */
  function Actions(status: ReviewStatus): (acts: seq<Action>)
    ensures |acts| >= 2 && acts[|acts| - 1] == Delete
    ensures forall i :: 0 <= i < |acts| - 1 ==> acts[i].SetStatus?
    ensures forall i :: 0 <= i < |acts| - 1 ==> acts[i].target != Pending && acts[i].target != status
    ensures forall i, j :: 0 <= i < j < |acts| - 1 ==> acts[i].target != acts[j].target
    ensures forall i :: 0 < i < |acts| - 1 ==> acts[i].target != Approved
    ensures forall i :: 0 <= i < |acts| - 1 ==> acts[i].caption == CaptionFor(status, acts[i].target)
  {
    match status
    case Pending => [SetStatus("Approve", Approved), SetStatus("Reject", Rejected), Delete]
    case Approved => [SetStatus("Unapprove", Rejected), Delete]
    case Rejected => [SetStatus("Approve", Approved), Delete]
  }

  /** The caption of the button that moves a review with `status` to `target`. */
  function CaptionFor(status: ReviewStatus, target: ReviewStatus): string
  {
    if target == Approved then "Approve" else if status == Pending then "Reject" else "Unapprove"
  }

  /** The statuses the buttons of a review can move it to. */
  function Targets(acts: seq<Action>): set<ReviewStatus>
  {
    set i | 0 <= i < |acts| && acts[i].SetStatus? :: acts[i].target
  }

  /**
   * A review can be moved to every non-pending status other than its own, and to nothing
   * else: a pending review to approved or rejected, an approved one to rejected only,
   * a rejected one to approved only.
   */
  lemma ActionTargets(status: ReviewStatus)
    ensures Targets(Actions(status)) == {Approved, Rejected} - {status}
    ensures |Actions(status)| == |Targets(Actions(status))| + 1
  {
    var acts := Actions(status);
    match status
    case Pending =>
      assert acts[0].target == Approved && acts[1].target == Rejected;
      assert {Approved, Rejected} - {Pending} == {Approved, Rejected};
    case Approved =>
      assert acts[0].target == Rejected;
      assert {Approved, Rejected} - {Approved} == {Rejected};
    case Rejected =>
      assert acts[0].target == Approved;
      assert {Approved, Rejected} - {Rejected} == {Approved};
  }

  /** No moderation step ever sends a review back to pending. */
  lemma NoActionToPending(status: ReviewStatus)
    ensures Pending !in Targets(Actions(status))
  {
    ActionTargets(status);
  }

  /** A button's label says where it goes: "Approve" to approved, "Reject" or "Unapprove" to rejected. */
  lemma ActionLabels(status: ReviewStatus)
    ensures forall a :: a in Actions(status) && a.SetStatus? ==>
      (a.caption == "Approve" <==> a.target == Approved) &&
      (a.caption == "Reject" ==> status == Pending) &&
      (a.caption == "Unapprove" ==> status == Approved)
  {
  }

  // ---------------------------------------------------------------------------
  // The badge and the pending count

  /** The variants of the status badge. */
  datatype BadgeVariant = Default | Secondary | Destructive

  /** The status badge: default for approved, secondary for pending, destructive for rejected. */
  function StatusBadge(status: ReviewStatus): (v: BadgeVariant)
    ensures v == Default <==> status == Approved
    ensures v == Secondary <==> status == Pending
    ensures v == Destructive <==> status == Rejected
  {
    match status
    case Approved => Default
    case Pending => Secondary
    case Rejected => Destructive
  }

  /** The part of a loaded review the page reads. */
  datatype Review = Review(id: string, rating: int, comment: string, status: ReviewStatus)

  /** The statuses of the loaded reviews, in order. */
  function Statuses(reviews: seq<Review>): (ss: seq<ReviewStatus>)
    ensures |ss| == |reviews|
    ensures forall i :: 0 <= i < |reviews| ==> ss[i] == reviews[i].status
  {
    seq(|reviews|, i requires 0 <= i < |reviews| => reviews[i].status)
  }

  /** `pendingCount`: how many loaded reviews are pending. */
  function PendingCount(reviews: seq<Review>): (n: nat)
    ensures n <= |reviews|
    ensures n == 0 <==> forall i :: 0 <= i < |reviews| ==> reviews[i].status != Pending
  {
    if reviews == [] then 0
    else (if reviews[0].status == Pending then 1 else 0) + PendingCount(reviews[1..])
  }

  /** The pending count is the number of times "pending" occurs among the statuses. */
  lemma {:induction false} PendingCountIsMultiplicity(reviews: seq<Review>)
    ensures PendingCount(reviews) == multiset(Statuses(reviews))[Pending]
  {
    if reviews == [] {
      assert Statuses(reviews) == [];
    } else {
      var ss := Statuses(reviews);
      PendingCountIsMultiplicity(reviews[1..]);
      assert ss == [reviews[0].status] + Statuses(reviews[1..]);
      assert multiset(ss) == multiset{reviews[0].status} + multiset(Statuses(reviews[1..]));
    }
  }

  /** Counting the pending reviews of two lists adds up. */
  lemma {:induction false} PendingCountAppend(a: seq<Review>, b: seq<Review>)
    ensures PendingCount(a + b) == PendingCount(a) + PendingCount(b)
  {
    if a == [] {
      assert a + b == b;
    } else {
      assert (a + b)[1..] == a[1..] + b;
      PendingCountAppend(a[1..], b);
    }
  }

  /** A list loaded through the "pending" tab consists of pending reviews only, so all of them count. */
  lemma PendingCountOfPendingTab(reviews: seq<Review>)
    requires forall i :: 0 <= i < |reviews| ==> reviews[i].status == Pending
    ensures PendingCount(reviews) == |reviews|
  {
    PendingCountIsMultiplicity(reviews);
    assert Statuses(reviews) == seq(|reviews|, i => Pending);
    AllPendingMultiplicity(|reviews|);
  }

  lemma {:induction false} AllPendingMultiplicity(n: nat)
    ensures multiset(seq(n, i => Pending))[Pending] == n
  {
    if n > 0 {
      AllPendingMultiplicity(n - 1);
      assert seq(n, i => Pending) == seq(n - 1, i => Pending) + [Pending];
    }
  }

  /** The "Pending" tab carries a count badge only when there is something pending. */
  predicate PendingBadgeShown(reviews: seq<Review>)
  {
    PendingCount(reviews) > 0
  }

  lemma PendingBadgeShownIff(reviews: seq<Review>)
    ensures PendingBadgeShown(reviews) <==> exists i :: 0 <= i < |reviews| && reviews[i].status == Pending
  {
  }

  // ---------------------------------------------------------------------------
  // The tab content

  /** What the open tab shows. */
  datatype TabContent = LoadingSpinner | ReviewCards(cards: seq<Review>) | EmptyNotice(message: string)

  /** "No <filter> reviews found", with nothing in place of the filter for "all". */
  function EmptyMessage(filter: StatusFilter): (m: string)
    ensures filter.OnlyStatus? ==> m == "No " + StatusName(filter.status) + " reviews found"
    ensures filter == AllReviews ==> m == "No  reviews found"
  {
    "No " + (if filter.OnlyStatus? then StatusName(filter.status) else "") + " reviews found"
  }

  /** The spinner while loading, then the review cards in order, or the empty notice. */
  function Content(loading: bool, reviews: seq<Review>, filter: StatusFilter): (c: TabContent)
    ensures c == LoadingSpinner <==> loading
    ensures c.ReviewCards? <==> !loading && reviews != []
    ensures c.ReviewCards? ==> c.cards == reviews
    ensures c.EmptyNotice? ==> c.message == EmptyMessage(filter)
  {
    if loading then LoadingSpinner
    else if |reviews| > 0 then ReviewCards(reviews)
    else EmptyNotice(EmptyMessage(filter))
  }
}
