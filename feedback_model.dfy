/**
 * The Feedback schema: a trimmed name of 2 to 100 characters, a required
 * trimmed and lowercased email, a required trimmed message of at most 1000
 * characters, and timestamps.
 */
module FeedbackModel {
  import opened JsValues
  import opened ObjectIds

  datatype Feedback = Feedback(id: ObjectId, name: string, email: string, message: string, createdAt: nat)

  predicate FeedbackValid(f: Feedback) {
    Trimmed(f.name) && 2 <= |f.name| <= 100
    && f.email != "" && Trimmed(f.email) && Lower(f.email) == f.email
    && f.message != "" && Trimmed(f.message) && |f.message| <= 1000
  }

  /** `Feedback.create`: setters, then validators; None when validation fails. */
  function FeedbackDocument(id: ObjectId, name: string, email: string, message: string, now: nat): (r: Option<Feedback>)
    ensures r.Some? <==> 2 <= |Trim(name)| <= 100 && !AllWhitespace(email) && !AllWhitespace(message) && |Trim(message)| <= 1000
    ensures r.Some? ==> FeedbackValid(r.value)
    ensures r.Some? ==> r.value == Feedback(id, Trim(name), Lower(Trim(email)), Trim(message), now)
  {
    LowerTrimCommute(email);
    TrimIdempotent(Lower(email));
    TrimEmptyIffWhitespace(email);
    TrimEmptyIffWhitespace(message);
    var f := Feedback(id, Trim(name), Lower(Trim(email)), Trim(message), now);
    if FeedbackValid(f) then Some(f) else None
  }

  /** The values the handler passes (already trimmed and lowercased) come out of the setters unchanged. */
  lemma HandlerValuesSettle(name: string, email: string, message: string)
    ensures Trim(Trim(name)) == Trim(name) && Trim(message) == Trim(Trim(message))
    ensures Lower(Trim(Trim(Lower(email)))) == Trim(Lower(email))
  {
    TrimIdempotent(name);
    TrimIdempotent(message);
    TrimIdempotent(Lower(email));
    LowerTrimCommute(Lower(email));
    LowerIdempotent(email);
  }
}
