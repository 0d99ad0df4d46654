/**
 The provider's claim watchlist (Watchlist): adding an id with a service
 date, refreshing the list, and the colours of the message line and of
 each row's status badge.
 */
module Watchlist {
  import opened Text

  /** One watched claim as the list holds it; rows from the server may lack any field. */
  datatype Item = Item(watchlistId: Option<string>, serviceDate: Option<string>, status: Option<string>, addedAt: Option<string>)

  /** The page's state: the two inputs, the list, the message line and the add button's busy flag. */
  datatype Panel = Panel(id: string, serviceDate: string, items: seq<Item>, message: string, loading: bool)

  /** The body posted to the add endpoint. */
  datatype Post = Post(providerNo: Option<string>, watchlistId: string, serviceDate: string, email: Option<string>, status: string)

  datatype AddReply = Posted | PostFailed

  const NotAddedYet := "ID Not Added Yet"

  /** `addToWatchlist`; `providerNo` and `email` come from the stored user, `now` is the clock's ISO time. */
  function AddToWatchlist(p: Panel, providerNo: Option<string>, email: Option<string>, reply: AddReply, now: string): (r: (Panel, Option<Post>))
    ensures p.id == "" || p.serviceDate == "" ==> r == (p.(message := "Please fill in all fields"), None)
    ensures r.1.Some? <==> p.id != "" && p.serviceDate != ""
    ensures r.1.Some? ==> r.1.value == Post(providerNo, p.id, p.serviceDate, email, NotAddedYet) && !r.0.loading
    ensures r.1.Some? && reply == Posted ==>
      r.0 == Panel("", "", [Item(Some(p.id), Some(p.serviceDate), Some(NotAddedYet), Some(now))] + p.items, "Successfully added to watchlist!", false)
    ensures r.1.Some? && reply == PostFailed ==> r.0 == p.(message := "Failed to add to watchlist", loading := false)
  {
    if p.id == "" || p.serviceDate == "" then (p.(message := "Please fill in all fields"), None)
    else
      var post := Post(providerNo, p.id, p.serviceDate, email, NotAddedYet);
      var sending := p.(loading := true, message := "");
      match reply
      case Posted =>
        var item := Item(Some(p.id), Some(p.serviceDate), Some(NotAddedYet), Some(now));
        (sending.(items := [item] + p.items, message := "Successfully added to watchlist!", id := "", serviceDate := "", loading := false), Some(post))
      case PostFailed =>
        (sending.(message := "Failed to add to watchlist", loading := false), Some(post))
  }

  /** A successful add puts the new item first and shifts every earlier item down by one, unchanged. */
  lemma AddPrependsAndKeepsTheRest(p: Panel, providerNo: Option<string>, email: Option<string>, now: string)
    requires p.id != "" && p.serviceDate != ""
    ensures var items := AddToWatchlist(p, providerNo, email, Posted, now).0.items;
      |items| == |p.items| + 1 && items[1..] == p.items
      && items[0].watchlistId == Some(p.id) && items[0].serviceDate == Some(p.serviceDate)
  {
  }

  /** A request is made only with both inputs filled, and whatever the reply, the list only ever grows by the one item. */
  lemma AddNeverLosesItems(p: Panel, providerNo: Option<string>, email: Option<string>, reply: AddReply, now: string)
    ensures forall x :: x in p.items ==> x in AddToWatchlist(p, providerNo, email, reply, now).0.items
    ensures reply == PostFailed ==> AddToWatchlist(p, providerNo, email, reply, now).0.items == p.items
  {
  }

  datatype FetchReply = Fetched(items: seq<Item>) | FetchFailed

  /** `fetchWatchlistItems`: the list is emptied first, then replaced by what the server sends. */
  function FetchItems(p: Panel, reply: FetchReply): (r: Panel)
    ensures reply.Fetched? ==> r.items == reply.items && r.message == p.message
    ensures reply.FetchFailed? ==> r.items == [] && r.message == "Failed to fetch watchlist items"
    ensures r.id == p.id && r.serviceDate == p.serviceDate && r.loading == p.loading
  {
    var cleared := p.(items := []);
    match reply
    case Fetched(xs) => cleared.(items := xs)
    case FetchFailed => cleared.(message := "Failed to fetch watchlist items")
  }

  // ---------------------------------------------------------------------------
  // Colours

  /** The message line is green iff "Success" occurs in it at some position. */
  predicate MessageIsGreen(message: string)
    ensures MessageIsGreen(message) <==> exists i :: OccursAt(message, "Success", i)
  {
    Includes(message, "Success")
  }

  /** A message without a capital S cannot mention "Success". */
  lemma NoCapitalSMeansRed(message: string)
    requires 'S' !in message
    ensures !MessageIsGreen(message)
  {
    forall i | 0 <= i && i + 7 <= |message| ensures !OccursAt(message, "Success", i) {
      assert message[i..i + 7][0] == message[i];
      assert message[i] in message;
    }
  }

  /** The success message is drawn green... */
  lemma SuccessMessageIsGreen()
    ensures MessageIsGreen("Successfully added to watchlist!")
  {
    assert OccursAt("Successfully added to watchlist!", "Success", 0);
  }

  /** ...and every failure message red. */
  lemma FailureMessagesAreRed(m: string)
    requires m in {"Please fill in all fields", "Failed to add to watchlist", "Failed to fetch watchlist items"}
    ensures !MessageIsGreen(m)
  {
    assert 'S' !in m;
    NoCapitalSMeansRed(m);
  }

  /** The badge is green iff the status, trimmed, is exactly "ID Found"; a green status contains "ID Found". */
  predicate BadgeIsGreen(status: Option<string>)
    ensures BadgeIsGreen(status) ==> status.Some? && Includes(status.value, "ID Found")
  {
    status.Some? && (TrimIsIncluded(status.value); Trim(status.value) == "ID Found")
  }

  /** `s` is "ID Found" with white space `a` before it and `b` after it. */
  predicate PaddedFound(s: string, a: string, b: string) {
    IsBlank(a) && IsBlank(b) && s == a + "ID Found" + b
  }

  /** A green badge is "ID Found" with some white space around it... */
  lemma GreenBadgeIsPadded(s: string)
    requires BadgeIsGreen(Some(s))
    ensures exists a, b :: PaddedFound(s, a, b)
  {
    TrimSplits(s);
    var a, b :| IsBlank(a) && IsBlank(b) && s == a + Trim(s) + b;
    assert PaddedFound(s, a, b);
  }

  /** ...and "ID Found" with any white space around it gives a green badge. */
  lemma PaddedBadgeIsGreen(s: string, a: string, b: string)
    requires PaddedFound(s, a, b)
    ensures BadgeIsGreen(Some(s))
  {
    TrimOfPadded(a, "ID Found", b);
  }

  /** An item just added is shown with a yellow badge. */
  lemma NewItemIsYellow(p: Panel, providerNo: Option<string>, email: Option<string>, now: string)
    requires p.id != "" && p.serviceDate != ""
    ensures !BadgeIsGreen(AddToWatchlist(p, providerNo, email, Posted, now).0.items[0].status)
  {
    assert "" + NotAddedYet + "" == NotAddedYet;
    TrimOfPadded("", NotAddedYet, "");
  }
}
