/**
 The decision engine: from the mobile performance score and the lead's name
 to an outreach action, an email subject and body, and an audit note.
 */
module Decision {
  import opened Wrappers
  import opened Text

  datatype Action = Send | Skip {
    /** The text the results table stores in its `decision` column. */
    function Label(): (s: string)
      ensures s == "send" <==> Send?
      ensures s == "skip" <==> Skip?
    {
      if Send? then "send" else "skip"
    }
  }

  /** The three outreach templates, named after their score ranges. */
  datatype Bucket = Low | Mid | High {
    function Label(): string {
      match this
      case Low => "0-50"
      case Mid => "51-75"
      case High => "76-90"
    }
  }

  /** The 4-tuple `(action, subject, body, note)` that `decision_and_email` returns. */
  datatype Verdict = Verdict(action: Action, subject: string, body: string, note: string)

  const NoScoreNote: string := "Score not available"
  const FastSiteNote: string := "Performance is 90+ (no outreach)"

  /**
   The score range of each bucket as the if/elif/else chain selects it:
   `Low` has no lower bound, so negative scores land there.
   */
  predicate InRange(b: Bucket, score: int) {
    match b
    case Low => score <= 50
    case Mid => 51 <= score <= 75
    case High => 76 <= score <= 90
  }

  /** Every score of at most 90 lies in exactly one range; larger scores lie in none. */
  lemma RangesPartition(score: int)
    ensures score <= 90 <==> (InRange(Low, score) || InRange(Mid, score) || InRange(High, score))
    ensures forall b1: Bucket, b2: Bucket :: InRange(b1, score) && InRange(b2, score) ==> b1 == b2
  {
  }

  const LowSubject: string := "Quick note about your website performance"
  const MidSubject: string := "Website performance improvement opportunity"
  const HighSubject: string := "Reaching 90+ PageSpeed score for your website"

  function Subject(b: Bucket): string {
    match b
    case Low => LowSubject
    case Mid => MidSubject
    case High => HighSubject
  }

  /** The fixed text of each email body, after the greeting line and a blank line. */
  const LowText: string :=
    "I reviewed your website using Google PageSpeed Insights and noticed that the mobile performance score is extremely low.\n"
    + "This negatively affects search visibility, organic traffic, and significantly increases advertising costs if you are running paid campaigns.\n\n"
    + "We can fix this within 2\U{2013}3 days, with an estimated cost of $400\U{2013}600.\n"
    + "If this is interesting for you, just reply to this email.\n\n"
    + "Best regards,\n"
    + "Roman Sidorin\n"
    + "DITS.AGENCY"

  const MidText: string :=
    "I reviewed your website via Google PageSpeed Insights and noticed that the mobile performance is quite weak.\n"
    + "This can negatively impact search visibility, organic traffic, and increase advertising costs when running paid campaigns.\n\n"
    + "We can improve this within 2\U{2013}3 days, with a budget of $400\U{2013}600.\n"
    + "If you\U{2019}re interested, simply reply to this email.\n\n"
    + "Best regards,\n"
    + "Roman Sidorin\n"
    + "DITS.AGENCY"

  const HighText: string :=
    "Your website already shows a fairly good mobile performance score.\n"
    + "However, if your goal is to reach 90+, we can help you achieve this.\n\n"
    + "In most cases, this takes 2\U{2013}3 days and costs $400\U{2013}800.\n"
    + "If this sounds interesting, just reply to this email.\n\n"
    + "Best regards,\n"
    + "Roman Sidorin\n"
    + "DITS.AGENCY"

  function Template(b: Bucket): string {
    match b
    case Low => LowText
    case Mid => MidText
    case High => HighText
  }

  /** Python truthiness of `name`: present and non-empty. */
  predicate HasName(name: Option<string>) {
    name.Some? && |name.value| > 0
  }

  /** The first line of every body: `Hi <name>,` for a truthy name, else `Hi,`. */
  function Greeting(name: Option<string>): string {
    "Hi" + (if HasName(name) then " " + name.value else "") + ","
  }

  lemma GreetingShape(name: Option<string>)
    ensures HasName(name) ==> Greeting(name) == "Hi " + name.value + ","
    ensures !HasName(name) ==> Greeting(name) == "Hi,"
  {
  }

  const NotePrefix: string := "Mobile performance "
  const NoteMiddle: string := ". Offer depends on bucket "

  /** `f"Mobile performance {perf}. Offer depends on bucket {bucket}."` */
  function SendNote(score: int, b: Bucket): string {
    NotePrefix + IntToString(score) + NoteMiddle + b.Label() + "."
  }

  /** The template bucket the source's if/elif/else chain selects. */
  function BucketOf(score: int): (b: Bucket)
    requires score < 91
    ensures InRange(b, score)
  {
    if score <= 50 then Low
    else if 51 <= score <= 75 then Mid
    else High
  }

  /** The decision engine: skip without a score or at 91 and above, otherwise send the bucket's template. */
  function DecisionAndEmail(perf: Option<int>, name: Option<string>): (d: Verdict)
    ensures perf.None? ==> d == Verdict(Skip, "", "", NoScoreNote)
    ensures perf.Some? && perf.value >= 91 ==> d == Verdict(Skip, "", "", FastSiteNote)
    ensures d.action == Send <==> perf.Some? && perf.value <= 90
    ensures d.action == Send <==> d.subject != ""
    ensures d.action == Send <==> d.body != ""
    ensures perf.Some? ==> forall b :: InRange(b, perf.value) ==>
      && d.subject == Subject(b)
      && d.body == Greeting(name) + "\n\n" + Template(b)
      && d.note == SendNote(perf.value, b)
  {
    match perf
    case None => Verdict(Skip, "", "", NoScoreNote)
    case Some(score) =>
      if score >= 91 then Verdict(Skip, "", "", FastSiteNote)
      else
        var b := BucketOf(score);
        RangesPartition(score);
        Verdict(Send, Subject(b), Greeting(name) + "\n\n" + Template(b), SendNote(score, b))
  }

  /** On every send the body opens with `Hi <name>,` when the name is truthy and with `Hi,` otherwise. */
  lemma BodyOpensWithGreeting(perf: Option<int>, name: Option<string>)
    requires DecisionAndEmail(perf, name).action == Send
    ensures HasName(name) ==> "Hi " + name.value + "," <= DecisionAndEmail(perf, name).body
    ensures !HasName(name) ==> "Hi," <= DecisionAndEmail(perf, name).body
  {
    var g := Greeting(name);
    var opening := g + "\n\n";
    var body := DecisionAndEmail(perf, name).body;
    assert body == opening + Template(BucketOf(perf.value));
    PrefixOfConcat(g, "\n\n");
    PrefixOfConcat(opening, Template(BucketOf(perf.value)));
    PrefixTransitive(g, opening, body);
    GreetingShape(name);
  }

  /**
   The name only reaches the greeting: action, subject and note never depend on it,
   and any two falsy names (absent or empty) give identical output.
   */
  lemma NameOnlyShapesGreeting(perf: Option<int>, n1: Option<string>, n2: Option<string>)
    ensures DecisionAndEmail(perf, n1).action == DecisionAndEmail(perf, n2).action
    ensures DecisionAndEmail(perf, n1).subject == DecisionAndEmail(perf, n2).subject
    ensures DecisionAndEmail(perf, n1).note == DecisionAndEmail(perf, n2).note
    ensures !HasName(n1) && !HasName(n2) ==> DecisionAndEmail(perf, n1) == DecisionAndEmail(perf, n2)
  {
  }

  /** Reads the score back out of an audit note, if the note is a send note. */
  function ScoreInNote(note: string): Option<int> {
    if |note| >= |NotePrefix| && note[..|NotePrefix|] == NotePrefix then
      var digits := UpToDot(note[|NotePrefix|..]);
      if IsIntLiteral(digits) then Some(ParseInt(digits)) else None
    else None
  }

  /** A send note gives back the score it was built from. */
  lemma SendNoteReadsBack(score: int, b: Bucket)
    ensures ScoreInNote(SendNote(score, b)) == Some(score)
  {
    var digits := IntToString(score);
    var rest := NoteMiddle + b.Label() + ".";
    ConcatAssoc(NotePrefix + digits, NoteMiddle, b.Label());
    ConcatAssoc(NotePrefix + digits, NoteMiddle + b.Label(), ".");
    ConcatAssoc(NotePrefix, digits, rest);
    SplitConcat(NotePrefix, digits + rest);
    UpToDotSplits(digits, rest);
    IntRoundTrip(score);
  }

  /** Neither skip note reads as a score. */
  lemma SkipNotesCarryNoScore()
    ensures ScoreInNote(NoScoreNote) == None
    ensures ScoreInNote(FastSiteNote) == None
  {
    assert NoScoreNote[..|NotePrefix|][0] != NotePrefix[0];
    assert FastSiteNote[..|NotePrefix|][0] != NotePrefix[0];
  }

  /** The audit note carries the score on exactly the send path, and it can be read back from the note. */
  lemma NoteRecordsScore(perf: Option<int>, name: Option<string>)
    ensures ScoreInNote(DecisionAndEmail(perf, name).note)
      == if DecisionAndEmail(perf, name).action == Send then perf else None
  {
    SkipNotesCarryNoScore();
    if perf.Some? && perf.value <= 90 {
      SendNoteReadsBack(perf.value, BucketOf(perf.value));
    }
  }
}
