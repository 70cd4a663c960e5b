/** The logic of the marketing site's script (script.js): the course-finder
    quiz, the WhatsApp enrolment message and the newsletter form's check
    before it calls the backend. */
module Site {
  import opened Js
  import opened Strings
  import Patterns

  // ---------------------------------------------------------------------
  // Quiz

  /** The keys of the quiz tally, in the order `Object.entries` lists them. */
  const QuizKeys: seq<string> := ["frontend", "backend", "fullstack"]

  /** The display name of each key. */
  const CourseNames: map<string, string> :=
    map["frontend" := "Frontend Development",
        "backend" := "Backend Development",
        "fullstack" := "Full Stack Development"]

  /** The recommendation when no answer has been given. */
  const DefaultCourse: string := "Computer Basics"

  /** `courseNames[key] || 'Computer Basics'`. */
  function CourseName(key: string): string
  {
    if key in CourseNames then CourseNames[key] else DefaultCourse
  }

  /** Index `k` is the recommended one: its tally is positive, no tally is
      higher, and every earlier tally is strictly lower (a later equal tally
      does not replace it). */
  predicate Leads(scores: seq<nat>, k: int)
  {
    && 0 <= k < |scores|
    && scores[k] > 0
    && (forall j | 0 <= j < |scores| :: scores[j] <= scores[k])
    && (forall j | 0 <= j < k :: scores[j] < scores[k])
  }

  /** The tie-break rule picks one index only. */
  lemma LeaderUnique(scores: seq<nat>, k1: int, k2: int)
    requires Leads(scores, k1) && Leads(scores, k2)
    ensures k1 == k2
  {
  }

  /** A tally with a positive counter has a recommended index. */
  lemma {:induction false} LeaderExists(scores: seq<nat>)
    requires exists i | 0 <= i < |scores| :: scores[i] > 0
    ensures exists k :: Leads(scores, k)
  {
    var i :| 0 <= i < |scores| && scores[i] > 0;
    var k := FirstMax(scores);
    assert scores[k] >= scores[i];
    assert Leads(scores, k);
  }

  /** The first index holding the largest tally. */
  function FirstMax(scores: seq<nat>): (k: nat)
    requires |scores| > 0
    ensures k < |scores|
    ensures forall j | 0 <= j < |scores| :: scores[j] <= scores[k]
    ensures forall j | 0 <= j < k :: scores[j] < scores[k]
  {
    if |scores| == 1 then 0
    else
      var k := FirstMax(scores[..|scores| - 1]);
      if scores[|scores| - 1] > scores[k] then |scores| - 1 else k
  }

  /** One answer click: `quizScore[points] += 1`. A `points` value that is
      none of the three keys leaves the three tallies as they are. */
  function Click(scores: seq<nat>, points: string): (r: seq<nat>)
    requires |scores| == 3
    ensures |r| == 3
  {
    seq(3, i requires 0 <= i < 3 => scores[i] + (if QuizKeys[i] == points then 1 else 0))
  }

  /** The tally after a sequence of clicks. */
  function Replay(scores: seq<nat>, clicks: seq<string>): (r: seq<nat>)
    requires |scores| == 3
    ensures |r| == 3
    decreases clicks
  {
    if clicks == [] then scores else Replay(Click(scores, clicks[0]), clicks[1..])
  }

  /** After any sequence of clicks each tally has grown by exactly the
      number of clicks on its key. */
  lemma {:induction false} ReplayCounts(scores: seq<nat>, clicks: seq<string>)
    requires |scores| == 3
    ensures forall i | 0 <= i < 3 ::
      Replay(scores, clicks)[i] == scores[i] + Occurrences(clicks, QuizKeys[i])
    decreases clicks
  {
    if clicks != [] {
      ReplayCounts(Click(scores, clicks[0]), clicks[1..]);
    }
  }

  /** Between two resets the tallies never decrease. */
  lemma ReplayNeverDecreases(scores: seq<nat>, clicks: seq<string>)
    requires |scores| == 3
    ensures forall i | 0 <= i < 3 :: Replay(scores, clicks)[i] >= scores[i]
  {
    ReplayCounts(scores, clicks);
  }

  /** The quiz tally `quizScore`, a module-level object the click handler
      updates in place and `resetQuiz` replaces. */
  class Quiz {
    var frontend: nat
    var backend: nat
    var fullstack: nat

    /** The three tallies in `Object.entries` order. */
    function Scores(): (s: seq<nat>)
      reads this
      ensures |s| == 3
    {
      [frontend, backend, fullstack]
    }

    /** The initial tally: every counter at zero. */
    constructor ()
      ensures Scores() == [0, 0, 0]
    {
      frontend, backend, fullstack := 0, 0, 0;
    }

    /** `resetQuiz`: every counter back to zero. */
    method Reset()
      modifies this
      ensures Scores() == [0, 0, 0]
    {
      frontend, backend, fullstack := 0, 0, 0;
    }

    /** The click handler of a quiz option whose `data-points` is `points`:
        that key's counter goes up by one, the others stay. */
    method Answer(points: string)
      modifies this
      ensures Scores() == Click(old(Scores()), points)
      ensures forall i | 0 <= i < 3 :: Scores()[i] == old(Scores())[i] + (if QuizKeys[i] == points then 1 else 0)
    {
      if points == "frontend" {
        frontend := frontend + 1;
      } else if points == "backend" {
        backend := backend + 1;
      } else if points == "fullstack" {
        fullstack := fullstack + 1;
      }
    }

    /** `showQuizResult`: scan the entries, replacing the leader only on a
        strictly higher tally, and map the winning key to its display name. */
    method Recommend() returns (courseName: string)
      ensures (forall i | 0 <= i < 3 :: Scores()[i] == 0) <==> courseName == DefaultCourse
      ensures forall k | Leads(Scores(), k) :: courseName == CourseName(QuizKeys[k])
      ensures (exists i | 0 <= i < 3 :: Scores()[i] > 0) ==>
        exists k :: Leads(Scores(), k) && courseName == CourseNames[QuizKeys[k]]
    {
      var entries := [("frontend", frontend), ("backend", backend), ("fullstack", fullstack)];
      var maxScore := 0;
      var recommendedCourse := "";
      ghost var best := -1;
      var i := 0;
      while i < |entries|
        invariant 0 <= i <= |entries|
        invariant -1 <= best < i
        invariant best == -1 ==>
          recommendedCourse == "" && maxScore == 0 && forall j | 0 <= j < i :: Scores()[j] == 0
        invariant best >= 0 ==>
          recommendedCourse == QuizKeys[best] && maxScore == Scores()[best] && Leads(Scores()[..i], best)
      {
        var (course, score) := entries[i];
        if score > maxScore {
          maxScore, recommendedCourse := score, course;
          best := i;
        }
        i := i + 1;
      }
      assert Scores()[..3] == Scores();
      courseName := CourseName(recommendedCourse);
      if best >= 0 {
        forall k | Leads(Scores(), k) ensures k == best {
          LeaderUnique(Scores(), k, best);
        }
      }
    }
  }

  /** Clicking one more option after a sequence is one more `Click`. */
  lemma {:induction false} ReplaySnoc(scores: seq<nat>, clicks: seq<string>, points: string)
    requires |scores| == 3
    ensures Replay(scores, clicks + [points]) == Click(Replay(scores, clicks), points)
    decreases clicks
  {
    if clicks == [] {
      assert [] + [points] == [points];
    } else {
      assert (clicks + [points])[1..] == clicks[1..] + [points];
      ReplaySnoc(Click(scores, clicks[0]), clicks[1..], points);
    }
  }

  /** A quiz session: opening the quiz resets the tally, the visitor clicks
      the options `clicks` in order, and the result panel then shows the
      course for the key clicked most often, ties going to the earlier key. */
  method QuizSession(clicks: seq<string>) returns (courseName: string)
    ensures var counts := seq(3, i requires 0 <= i < 3 => Occurrences(clicks, QuizKeys[i]));
      && ((forall i | 0 <= i < 3 :: counts[i] == 0) <==> courseName == DefaultCourse)
      && (forall k | Leads(counts, k) :: courseName == CourseName(QuizKeys[k]))
  {
    var quiz := new Quiz();
    quiz.Reset();
    var n := 0;
    while n < |clicks|
      invariant 0 <= n <= |clicks|
      invariant quiz.Scores() == Replay([0, 0, 0], clicks[..n])
    {
      quiz.Answer(clicks[n]);
      ReplaySnoc([0, 0, 0], clicks[..n], clicks[n]);
      assert clicks[..n + 1] == clicks[..n] + [clicks[n]];
      n := n + 1;
    }
    assert clicks[..n] == clicks;
    ReplayCounts([0, 0, 0], clicks);
    ghost var counts := seq(3, i requires 0 <= i < 3 => Occurrences(clicks, QuizKeys[i]));
    assert quiz.Scores() == counts;
    courseName := quiz.Recommend();
  }

  // ---------------------------------------------------------------------
  // Enrolment through WhatsApp

  const EnrollPrefix: string := "Hello CodeSmart NG, I want to enroll for "

  /** The message `enroll(course)` pre-fills in WhatsApp. */
  function EnrollMessage(course: string): (msg: string)
    ensures |msg| == |EnrollPrefix| + |course| + 1
    ensures CourseOfMessage(msg) == Some(course)
  {
    var msg := EnrollPrefix + course + ".";
    assert msg[..|EnrollPrefix|] == EnrollPrefix;
    assert msg[|EnrollPrefix|..|msg| - 1] == course;
    msg
  }

  /** Reads the course back out of an enrolment message. */
  function CourseOfMessage(msg: string): Option<string>
  {
    if |msg| > |EnrollPrefix| && msg[..|EnrollPrefix|] == EnrollPrefix && msg[|msg| - 1] == '.'
    then Some(msg[|EnrollPrefix|..|msg| - 1])
    else None
  }

  // ---------------------------------------------------------------------
  // Newsletter form

  const InvalidEmailNotice: string := "Please enter a valid email address."

  /** What the newsletter form does with the typed address: show an error
      notice, or go on to call the subscribe endpoint with it. */
  datatype Submission = Rejected(notice: string) | Subscribe(email: string)

  /** The newsletter form's check before any request: the address must be
      non-empty and contain an `@`. */
  function NewsletterSubmit(email: string): (r: Submission)
    ensures r.Subscribe? <==> Occurrences(email, '@') > 0
    ensures r.Subscribe? ==> r.email == email
    ensures r.Rejected? ==> r.notice == InvalidEmailNotice
  {
    NonZeroCount(email, '@');
    if email == "" || '@' !in email then Rejected(InvalidEmailNotice) else Subscribe(email)
  }

  lemma {:induction false} NonZeroCount(s: string, c: char)
    ensures Occurrences(s, c) > 0 <==> c in s
  {
    if s != [] {
      NonZeroCount(s[1..], c);
      assert s == [s[0]] + s[1..];
    }
  }

  /** Every address the blog's and the dashboard's e-mail expression
      accepts passes the site's newsletter check ... */
  lemma EmailPatternPassesNewsletter(email: string)
    requires Patterns.EmailPattern(email)
    ensures NewsletterSubmit(email).Subscribe?
  {
    Patterns.EmailPatternOneAt(email);
  }

  /** ... but not the other way round: the bare `@` passes the check and
      is not an address by the expression. */
  lemma NewsletterLaxerThanPattern()
    ensures NewsletterSubmit("@").Subscribe? && !Patterns.EmailPattern("@")
  {
    assert "@"[0] == '@';
  }
}
