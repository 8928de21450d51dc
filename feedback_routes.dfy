/**
 * The feedback route (POST `/api/feedback`): a chain of early-return checks on
 * the body, then a user lookup, then one insert into the feedback table.
 */
module FeedbackRoutes {
  import opened Wrappers
  import opened Tables
  import opened Http
  import opened Text
  import Store

  /** Body of POST /; a missing or empty field is `None` or `Some("")`. */
  datatype FeedbackRequest = FeedbackRequest(userId: Option<UserId>, category: Option<string>, content: Option<string>)

  /** What the 201 response exposes of the stored row. */
  datatype Receipt = Receipt(id: nat, category: string, createdAt: Timestamp)

  const Categories: seq<string> := ["suggestion", "bug", "report", "praise", "other"]
  /** Fewest characters of trimmed content. */
  const MinContent: nat := 10
  /** Most characters of raw, untrimmed content. */
  const MaxContent: nat := 500

  /** The checks before the user lookup, in the handler's order; `true` means the body passes them all. */
  predicate BodyIsValid(req: FeedbackRequest) {
    && req.userId.Some? && Truthy(req.category) && Truthy(req.content)
    && req.category.value in Categories
    && |Trim(req.content.value)| >= MinContent
    && |req.content.value| <= MaxContent
  }

  /** POST / */
  function SubmitSpec(s: DbState, req: FeedbackRequest): Step<Result<Receipt>>
  {
    if !BodyIsValid(req) then Step(Fail(BadRequest), s)
    else if UserById(s.users, req.userId.value).None? then Step(Fail(NotFound), s)
    else
      var row := Feedback(s.nextId, req.userId.value, req.category.value, Trim(req.content.value), s.clock);
      Step(Ok(Receipt(row.id, row.category, row.createdAt)),
           s.(feedback := s.feedback + [row], nextId := s.nextId + 1, clock := s.clock + 1))
  }

  method Submit(db: Store.Database, req: FeedbackRequest) returns (r: Result<Receipt>)
    requires db.Valid()
    modifies db
    ensures Step(r, db.State()) == SubmitSpec(old(db.State()), req)
    ensures db.Valid()
  {
    if !(req.userId.Some? && Truthy(req.category) && Truthy(req.content)) {
      return Fail(BadRequest);
    }
    var content := req.content.value;
    if req.category.value !in Categories {
      return Fail(BadRequest);
    }
    if |Trim(content)| < MinContent {
      return Fail(BadRequest);
    }
    if |content| > MaxContent {
      return Fail(BadRequest);
    }
    var user := UserById(db.users, req.userId.value);
    if user.None? {
      return Fail(NotFound);
    }
    var row := Feedback(db.nextId, req.userId.value, req.category.value, Trim(content), db.clock);
    db.feedback, db.nextId, db.clock := db.feedback + [row], db.nextId + 1, db.clock + 1;
    r := Ok(Receipt(row.id, row.category, row.createdAt));
  }

  // ---------------------------------------------------------------- properties

  /**
   * Each failed check is a 400 that writes nothing: a missing or empty field,
   * a category outside the five, trimmed content under 10 characters, raw
   * content over 500 characters.
   */
  lemma SubmitRejections(s: DbState, req: FeedbackRequest)
    ensures var st := SubmitSpec(s, req);
      && (!(req.userId.Some? && Truthy(req.category) && Truthy(req.content)) ==> st.result == Fail(BadRequest))
      && (Truthy(req.category) && req.category.value !in Categories ==> st.result == Fail(BadRequest))
      && (Truthy(req.content) && |Trim(req.content.value)| < MinContent ==> st.result == Fail(BadRequest))
      && (Truthy(req.content) && |req.content.value| > MaxContent ==> st.result == Fail(BadRequest))
      && (st.result.Fail? ==> st.post == s)
  {
  }

  /**
   * Validation runs before the user lookup: an invalid body gets the same 400
   * whatever the database holds, and a valid body from an unknown user gets 404.
   */
  lemma ValidationPrecedesLookup(s1: DbState, s2: DbState, req: FeedbackRequest)
    ensures !BodyIsValid(req) ==> SubmitSpec(s1, req).result == SubmitSpec(s2, req).result == Fail(BadRequest)
    ensures BodyIsValid(req) ==> (SubmitSpec(s1, req).result == Fail(NotFound) <==> UserById(s1.users, req.userId.value).None?)
  {
  }

  /**
   * A stored row holds the trimmed content, which has no surrounding white
   * space and is 10 to 500 characters long; the category is one of the five;
   * the receipt names the row's id, category and time and nothing else.
   */
  lemma StoredFeedbackIsTrimmed(s: DbState, req: FeedbackRequest)
    requires SubmitSpec(s, req).result.Ok?
    ensures var st := SubmitSpec(s, req);
      && |st.post.feedback| == |s.feedback| + 1
      && st.post.feedback[..|s.feedback|] == s.feedback
      && var row := st.post.feedback[|s.feedback|];
      && row.userId == req.userId.value && UserById(s.users, row.userId).Some?
      && row.content == Trim(req.content.value)
      && MinContent <= |row.content| <= MaxContent
      && !IsSpace(row.content[0]) && !IsSpace(row.content[|row.content| - 1])
      && row.category in Categories
      && st.result.value == Receipt(row.id, row.category, row.createdAt)
      && st.post.users == s.users && st.post.alarms == s.alarms && st.post.matches == s.matches
  {
    TrimShape(req.content.value);
    var st := SubmitSpec(s, req);
    assert st.post.feedback[..|s.feedback|] == s.feedback;
  }

  lemma SubmitKeepsInv(s: DbState, req: FeedbackRequest)
    requires Inv(s)
    ensures Inv(SubmitSpec(s, req).post)
  {
  }
}
