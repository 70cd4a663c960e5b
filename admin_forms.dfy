/** The form validators of the admin dashboard (admin/admin.js):
    `validateCourseForm` and `validateEventForm` run a fixed list of rules
    and collect the message of every rule that fails, in rule order. */
module AdminForms {
  import opened Js
  import Strings

  // ---------------------------------------------------------------------
  // Collecting messages

  /** The messages of the failing rules, in rule order: the message list
      grows at its end, one rule at a time, as `errors.push` does. */
  function Kept<T>(msgs: seq<T>, fails: seq<bool>): (r: seq<T>)
    requires |msgs| == |fails|
    ensures |r| <= |msgs|
  {
    if msgs == [] then []
    else
      var n := |msgs| - 1;
      Kept(msgs[..n], fails[..n]) + Reported(fails[n], msgs[n])
  }

  /** No message exactly when every rule passes. */
  lemma {:induction false} KeptEmpty<T>(msgs: seq<T>, fails: seq<bool>)
    requires |msgs| == |fails|
    ensures Kept(msgs, fails) == [] <==> forall i | 0 <= i < |fails| :: !fails[i]
  {
    if msgs != [] {
      var n := |msgs| - 1;
      KeptEmpty(msgs[..n], fails[..n]);
      assert forall i | 0 <= i < n :: fails[..n][i] == fails[i];
    }
  }

  /** One more rule: its message is appended when it fails. */
  lemma KeptStep<T>(msgs: seq<T>, fails: seq<bool>, k: int)
    requires |msgs| == |fails| && 0 <= k < |msgs|
    ensures Kept(msgs[..k + 1], fails[..k + 1]) == Kept(msgs[..k], fails[..k]) + Reported(fails[k], msgs[k])
  {
    assert msgs[..k + 1][..k] == msgs[..k] && fails[..k + 1][..k] == fails[..k];
  }

  /** Only messages of the list are reported. */
  lemma {:induction false} KeptFromList(msgs: seq<string>, fails: seq<bool>, m: string)
    requires |msgs| == |fails|
    requires m in Kept(msgs, fails)
    ensures exists i | 0 <= i < |msgs| :: fails[i] && msgs[i] == m
  {
    var n := |msgs| - 1;
    if m in Kept(msgs[..n], fails[..n]) {
      KeptFromList(msgs[..n], fails[..n], m);
      var i :| 0 <= i < n && fails[..n][i] && msgs[..n][i] == m;
      assert fails[i] && msgs[i] == m;
    } else {
      assert fails[n] && msgs[n] == m;
    }
  }

  /** A text that is not in the list is never reported. */
  lemma {:induction false} KeptNotIn(msgs: seq<string>, fails: seq<bool>, m: string)
    requires |msgs| == |fails|
    requires forall j | 0 <= j < |msgs| :: msgs[j] != m
    ensures m !in Kept(msgs, fails)
  {
    if msgs != [] {
      var n := |msgs| - 1;
      assert forall j | 0 <= j < n :: msgs[..n][j] == msgs[j];
      KeptNotIn(msgs[..n], fails[..n], m);
    }
  }

  /** With distinct messages, a message is reported exactly when its own
      rule fails. */
  lemma {:induction false} KeptMember(msgs: seq<string>, fails: seq<bool>, i: int)
    requires |msgs| == |fails|
    requires forall a, b | 0 <= a < b < |msgs| :: msgs[a] != msgs[b]
    requires 0 <= i < |msgs|
    ensures msgs[i] in Kept(msgs, fails) <==> fails[i]
  {
    var n := |msgs| - 1;
    if i < n {
      assert forall a, b | 0 <= a < b < n :: msgs[..n][a] == msgs[a] && msgs[..n][b] == msgs[b];
      KeptMember(msgs[..n], fails[..n], i);
      assert msgs[..n][i] == msgs[i] && fails[..n][i] == fails[i];
    } else if !fails[n] {
      assert forall j | 0 <= j < n :: msgs[..n][j] != msgs[n];
      KeptNotIn(msgs[..n], fails[..n], msgs[n]);
    }
  }

  /** When every rule fails, every message is reported, in rule order. */
  lemma {:induction false} KeptAll<T>(msgs: seq<T>, fails: seq<bool>)
    requires |msgs| == |fails|
    requires forall i | 0 <= i < |fails| :: fails[i]
    ensures Kept(msgs, fails) == msgs
  {
    if msgs != [] {
      var n := |msgs| - 1;
      KeptAll(msgs[..n], fails[..n]);
      assert msgs[..n] + [msgs[n]] == msgs;
    }
  }

  /** What one rule contributes: its message if it fails. */
  function Reported<T>(fails: bool, msg: T): seq<T>
  {
    if fails then [msg] else []
  }

  /** Five rules, spelled out one after the other. */
  lemma KeptOfFive<T>(m0: T, m1: T, m2: T, m3: T, m4: T, b0: bool, b1: bool, b2: bool, b3: bool, b4: bool)
    ensures Kept([m0, m1, m2, m3, m4], [b0, b1, b2, b3, b4]) ==
      Reported(b0, m0) + Reported(b1, m1) + Reported(b2, m2) + Reported(b3, m3) + Reported(b4, m4)
  {
    assert Kept([m0], [b0]) == Reported(b0, m0) by {
      assert [m0][..0] == [] && [b0][..0] == [];
    }
    assert Kept([m0, m1], [b0, b1]) == Kept([m0], [b0]) + Reported(b1, m1) by {
      assert [m0, m1][..1] == [m0] && [b0, b1][..1] == [b0];
    }
    assert Kept([m0, m1, m2], [b0, b1, b2]) == Kept([m0, m1], [b0, b1]) + Reported(b2, m2) by {
      assert [m0, m1, m2][..2] == [m0, m1] && [b0, b1, b2][..2] == [b0, b1];
    }
    assert Kept([m0, m1, m2, m3], [b0, b1, b2, b3]) == Kept([m0, m1, m2], [b0, b1, b2]) + Reported(b3, m3) by {
      assert [m0, m1, m2, m3][..3] == [m0, m1, m2] && [b0, b1, b2, b3][..3] == [b0, b1, b2];
    }
    assert Kept([m0, m1, m2, m3, m4], [b0, b1, b2, b3, b4]) == Kept([m0, m1, m2, m3], [b0, b1, b2, b3]) + Reported(b4, m4) by {
      assert [m0, m1, m2, m3, m4][..4] == [m0, m1, m2, m3] && [b0, b1, b2, b3, b4][..4] == [b0, b1, b2, b3];
    }
  }

  /** A text field that is present and not the empty string (truthy). */
  predicate Given(field: Option<string>)
  {
    field.Some? && field.value != ""
  }

  /** `field && field.length >= n`: the rule `!field || field.length < n`
      passes. `length` counts UTF-16 code units, so an astral character such
      as an emoji counts twice. */
  predicate LongEnough(field: Option<string>, n: nat)
  {
    field.Some? && Strings.Utf16Length(field.value) >= n
  }

  const DescriptionMessage: string := "Description must be at least 10 characters"

  // ---------------------------------------------------------------------
  // validateCourseForm

  /** The course form's fields; the fee is the number the form yields. */
  datatype CourseForm = CourseForm(
    name: Option<string>,
    category: Option<string>,
    duration: Option<string>,
    fee: Option<int>,
    description: Option<string>)

  const CourseNameMessage: string := "Course name must be at least 3 characters"
  const CategoryMessage: string := "Please select a category"
  const DurationMessage: string := "Please specify duration"
  const FeeMessage: string := "Please enter a valid fee amount"

  const CourseMessages: seq<string> :=
    [CourseNameMessage, CategoryMessage, DurationMessage, FeeMessage, DescriptionMessage]

  /** Which of the five course rules fail, in rule order. The fee rule
      `!fee || fee < 0` fails on a missing fee, on `0` and on a negative one. */
  function CourseFailures(f: CourseForm): (fails: seq<bool>)
    ensures |fails| == |CourseMessages|
  {
    [ !LongEnough(f.name, 3),
      !Given(f.category),
      !Given(f.duration),
      f.fee.None? || f.fee.value == 0 || f.fee.value < 0,
      !LongEnough(f.description, 10) ]
  }

  /** A course form the dashboard accepts. */
  predicate ValidCourse(f: CourseForm)
  {
    && f.name.Some? && Strings.Utf16Length(f.name.value) >= 3
    && Given(f.category)
    && Given(f.duration)
    && f.fee.Some? && f.fee.value > 0
    && f.description.Some? && Strings.Utf16Length(f.description.value) >= 10
  }

  /** A length rule counts code units, not characters: a name of "a" and
      an emoji, two characters but three code units, passes the course
      name rule. */
  lemma AstralNameAccepted()
    ensures ValidCourse(CourseForm(Some("a\U{1F600}"), Some("x"), Some("y"), Some(5), Some("0123456789")))
  {
  }

  /** `validateCourseForm`: the messages of the failing rules in rule order,
      at most five; none exactly when the form is valid, so a fee of 0 is
      refused. */
  method ValidateCourseForm(f: CourseForm) returns (errors: seq<string>)
    ensures errors == Kept(CourseMessages, CourseFailures(f))
    ensures errors == [] <==> ValidCourse(f)
    ensures |errors| <= 5
  {
    errors := [];
    if !LongEnough(f.name, 3) {
      errors := errors + [CourseNameMessage];
    }
    ghost var e1 := errors;
    assert e1 == Reported(!LongEnough(f.name, 3), CourseNameMessage);
    if !Given(f.category) {
      errors := errors + [CategoryMessage];
    }
    ghost var e2 := errors;
    assert e2 == e1 + Reported(!Given(f.category), CategoryMessage);
    if !Given(f.duration) {
      errors := errors + [DurationMessage];
    }
    ghost var e3 := errors;
    assert e3 == e2 + Reported(!Given(f.duration), DurationMessage);
    if f.fee.None? || f.fee.value == 0 || f.fee.value < 0 {
      errors := errors + [FeeMessage];
    }
    ghost var e4 := errors;
    assert e4 == e3 + Reported(f.fee.None? || f.fee.value == 0 || f.fee.value < 0, FeeMessage);
    if !LongEnough(f.description, 10) {
      errors := errors + [DescriptionMessage];
    }
    assert errors == e4 + Reported(!LongEnough(f.description, 10), DescriptionMessage);
    CourseRulesInOrder(f);
    assert errors == [] <==> ValidCourse(f) by {
      CourseValidIff(f);
    }
  }

  /** The course rules' messages, one rule after the other. */
  lemma CourseRulesInOrder(f: CourseForm)
    ensures Kept(CourseMessages, CourseFailures(f)) ==
      Reported(!LongEnough(f.name, 3), CourseNameMessage) + Reported(!Given(f.category), CategoryMessage)
        + Reported(!Given(f.duration), DurationMessage)
        + Reported(f.fee.None? || f.fee.value == 0 || f.fee.value < 0, FeeMessage)
        + Reported(!LongEnough(f.description, 10), DescriptionMessage)
  {
    KeptOfFive(CourseNameMessage, CategoryMessage, DurationMessage, FeeMessage, DescriptionMessage,
      !LongEnough(f.name, 3), !Given(f.category), !Given(f.duration),
      f.fee.None? || f.fee.value == 0 || f.fee.value < 0, !LongEnough(f.description, 10));
  }

  /** The course form passes every rule exactly when it is valid. */
  lemma CourseValidIff(f: CourseForm)
    ensures Kept(CourseMessages, CourseFailures(f)) == [] <==> ValidCourse(f)
  {
    var b := CourseFailures(f);
    KeptEmpty(CourseMessages, b);
    assert (forall i | 0 <= i < |b| :: !b[i]) <==> !b[0] && !b[1] && !b[2] && !b[3] && !b[4];
  }

  /** Each course message is reported exactly when its rule fails. */
  lemma CourseMessageIff(f: CourseForm, i: int)
    requires 0 <= i < 5
    ensures CourseMessages[i] in Kept(CourseMessages, CourseFailures(f)) <==> CourseFailures(f)[i]
  {
    KeptMember(CourseMessages, CourseFailures(f), i);
  }

  /** A fee of zero is refused with the fee message whatever else is given. */
  lemma ZeroFeeRefused(f: CourseForm)
    requires f.fee == Some(0)
    ensures FeeMessage in Kept(CourseMessages, CourseFailures(f))
  {
    CourseMessageIff(f, 3);
  }

  /** A form failing every rule gets all five messages, in rule order. */
  lemma EmptyCourseForm()
    ensures Kept(CourseMessages, CourseFailures(CourseForm(None, None, None, None, None))) == CourseMessages
  {
    KeptAll(CourseMessages, CourseFailures(CourseForm(None, None, None, None, None)));
  }

  // ---------------------------------------------------------------------
  // validateEventForm

  /** The event form's fields; the start and end are timestamps. */
  datatype EventForm = EventForm(
    title: Option<string>,
    start: Option<int>,
    end: Option<int>,
    venue: Option<string>,
    description: Option<string>)

  const TitleMessage: string := "Event title must be at least 3 characters"
  const DatesMissingMessage: string := "Please specify start and end dates"
  const DateOrderMessage: string := "End date must be after start date"
  const VenueMessage: string := "Please specify venue or link"

  const EventMessages: seq<string> :=
    [TitleMessage, DatesMissingMessage, DateOrderMessage, VenueMessage, DescriptionMessage]

  /** The end-before-start rule compares two dates; with a date undefined or
      empty, an Invalid Date, the comparison is false and the rule passes. */
  predicate DatesOutOfOrder(f: EventForm)
  {
    f.start.Some? && f.end.Some? && f.start.value >= f.end.value
  }

  /** Which of the five event rules fail, in rule order. */
  function EventFailures(f: EventForm): (fails: seq<bool>)
    ensures |fails| == |EventMessages|
  {
    [ !LongEnough(f.title, 3),
      f.start.None? || f.end.None?,
      DatesOutOfOrder(f),
      !Given(f.venue),
      !LongEnough(f.description, 10) ]
  }

  /** An event form the dashboard accepts. */
  predicate ValidEvent(f: EventForm)
  {
    && f.title.Some? && Strings.Utf16Length(f.title.value) >= 3
    && f.start.Some? && f.end.Some? && f.start.value < f.end.value
    && Given(f.venue)
    && f.description.Some? && Strings.Utf16Length(f.description.value) >= 10
  }

  /** `validateEventForm`: the messages of the failing rules in rule order,
      at most five; none exactly when the form is valid. */
  method ValidateEventForm(f: EventForm) returns (errors: seq<string>)
    ensures errors == Kept(EventMessages, EventFailures(f))
    ensures errors == [] <==> ValidEvent(f)
    ensures |errors| <= 5
  {
    errors := [];
    if !LongEnough(f.title, 3) {
      errors := errors + [TitleMessage];
    }
    ghost var e1 := errors;
    assert e1 == Reported(!LongEnough(f.title, 3), TitleMessage);
    if f.start.None? || f.end.None? {
      errors := errors + [DatesMissingMessage];
    }
    ghost var e2 := errors;
    assert e2 == e1 + Reported(f.start.None? || f.end.None?, DatesMissingMessage);
    if DatesOutOfOrder(f) {
      errors := errors + [DateOrderMessage];
    }
    ghost var e3 := errors;
    assert e3 == e2 + Reported(DatesOutOfOrder(f), DateOrderMessage);
    if !Given(f.venue) {
      errors := errors + [VenueMessage];
    }
    ghost var e4 := errors;
    assert e4 == e3 + Reported(!Given(f.venue), VenueMessage);
    if !LongEnough(f.description, 10) {
      errors := errors + [DescriptionMessage];
    }
    assert errors == e4 + Reported(!LongEnough(f.description, 10), DescriptionMessage);
    EventRulesInOrder(f);
    assert errors == [] <==> ValidEvent(f) by {
      EventValidIff(f);
    }
  }

  /** The event rules' messages, one rule after the other. */
  lemma EventRulesInOrder(f: EventForm)
    ensures Kept(EventMessages, EventFailures(f)) ==
      Reported(!LongEnough(f.title, 3), TitleMessage) + Reported(f.start.None? || f.end.None?, DatesMissingMessage)
        + Reported(DatesOutOfOrder(f), DateOrderMessage) + Reported(!Given(f.venue), VenueMessage)
        + Reported(!LongEnough(f.description, 10), DescriptionMessage)
  {
    KeptOfFive(TitleMessage, DatesMissingMessage, DateOrderMessage, VenueMessage, DescriptionMessage,
      !LongEnough(f.title, 3), f.start.None? || f.end.None?, DatesOutOfOrder(f),
      !Given(f.venue), !LongEnough(f.description, 10));
  }

  /** The event form passes every rule exactly when it is valid. */
  lemma EventValidIff(f: EventForm)
    ensures Kept(EventMessages, EventFailures(f)) == [] <==> ValidEvent(f)
  {
    var b := EventFailures(f);
    KeptEmpty(EventMessages, b);
    assert (forall i | 0 <= i < |b| :: !b[i]) <==> !b[0] && !b[1] && !b[2] && !b[3] && !b[4];
  }

  /** With both dates given, the order message is reported exactly when
      the start is not before the end, whatever the other fields hold. */
  lemma DateOrderReported(f: EventForm)
    requires f.start.Some? && f.end.Some?
    ensures DateOrderMessage in Kept(EventMessages, EventFailures(f)) <==> f.start.value >= f.end.value
  {
    KeptMember(EventMessages, EventFailures(f), 2);
  }

  /** The title, venue and description rules report on their own field
      only: forms that agree on that field agree on its message. */
  lemma EventRulesIndependent(f: EventForm, g: EventForm, i: int)
    requires i == 0 || i == 3 || i == 4
    requires i == 0 ==> f.title == g.title
    requires i == 3 ==> f.venue == g.venue
    requires i == 4 ==> f.description == g.description
    ensures EventMessages[i] in Kept(EventMessages, EventFailures(f))
      <==> EventMessages[i] in Kept(EventMessages, EventFailures(g))
  {
    KeptMember(EventMessages, EventFailures(f), i);
    KeptMember(EventMessages, EventFailures(g), i);
  }
}
