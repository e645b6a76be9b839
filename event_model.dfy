/**
 * The Event model: which attributes must be present, and the three
 * associations `owner` (belongs_to through `user_id`), `attendances`
 * (has_many) and `users` (has_many through attendances).
 */
module EventModel {
  import opened Wrappers
  import opened Rows

  const LatBlank: string := "Lat can't be blank"
  const LonBlank: string := "Lon can't be blank"
  const NameBlank: string := "Name can't be blank"
  const StartedAtBlank: string := "Started at can't be blank"

  /**
   * The characters ActiveSupport's `String#blank?` treats as white space: the
   * POSIX class `[[:space:]]` on a UTF-8 string, which is Unicode's
   * White_Space property.
   */
  predicate Whitespace(c: char) {
    || ('\t' <= c <= '\r')
    || c == ' '
    || c == '\U{0085}'
    || c == '\U{00A0}'
    || c == '\U{1680}'
    || ('\U{2000}' <= c <= '\U{200A}')
    || c == '\U{2028}'
    || c == '\U{2029}'
    || c == '\U{202F}'
    || c == '\U{205F}'
    || c == '\U{3000}'
  }

  /** `blank?` on an attribute: nil, or a string of white space only (the empty string included). */
  predicate Blank(s: Option<string>): (b: bool)
    ensures s.None? || s == Some([]) ==> b
    ensures s.Some? && (forall k :: 0 <= k < |s.value| ==> Whitespace(s.value[k])) ==> b
    ensures s.Some? && (exists k :: 0 <= k < |s.value| && !Whitespace(s.value[k])) ==> !b
  {
    s.None? || forall k :: 0 <= k < |s.value| ==> Whitespace(s.value[k])
  }

  /** Lat, lon, name and started_at are all present; a complete event has a name with a visible character. */
  predicate Complete(a: EventAttrs): (b: bool)
    ensures b ==> a.lat.Some? && a.lon.Some? && a.startedAt.Some?
    ensures b ==> a.name.Some? && exists k :: 0 <= k < |a.name.value| && !Whitespace(a.name.value[k])
  {
    a.lat.Some? && a.lon.Some? && !Blank(a.name) && a.startedAt.Some?
  }

  /**
   * The attributes that must be present, in the order their errors are
   * reported (the model spec example_apps/rails/spec/models/event_spec.rb:4-7
   * and the message order the request spec expects at
   * example_apps/rails/spec/requests/api/v1/events/events_spec.rb:62-67).
   */
  datatype Required = Lat | Lon | Name | StartedAt {
    function Position(): nat {
      match this
      case Lat => 0
      case Lon => 1
      case Name => 2
      case StartedAt => 3
    }

    /** The full message Rails builds from the humanized attribute name. */
    function FullMessage(): string {
      match this
      case Lat => LatBlank
      case Lon => LonBlank
      case Name => NameBlank
      case StartedAt => StartedAtBlank
    }
  }

  /** No two required attributes share a message. */
  lemma FullMessageInjective(p: Required, q: Required)
    ensures p.FullMessage() == q.FullMessage() ==> p == q
  {
    if p != q {
      assert LatBlank[1] != LonBlank[1];
      assert p.FullMessage()[0] != q.FullMessage()[0] || {p, q} == {Lat, Lon};
    }
  }

  /** `attribute` is blank in `a`. */
  predicate Missing(a: EventAttrs, attribute: Required) {
    match attribute
    case Lat => a.lat.None?
    case Lon => a.lon.None?
    case Name => Blank(a.name)
    case StartedAt => a.startedAt.None?
  }

  /** The blank required attributes, in the order the validations run. */
  function BlankAttributes(a: EventAttrs): (r: seq<Required>)
    ensures forall q :: q in r <==> Missing(a, q)
    ensures forall i, j :: 0 <= i < j < |r| ==> r[i].Position() < r[j].Position()
  {
    (if a.lat.None? then [Lat] else []) +
    (if a.lon.None? then [Lon] else []) +
    (if Blank(a.name) then [Name] else []) +
    (if a.startedAt.None? then [StartedAt] else [])
  }

  /**
   * `event.errors.full_messages` after validation: one "can't be blank"
   * message per blank required attribute, in the order Lat, Lon, Name,
   * Started at.
   */
  function EventErrors(a: EventAttrs): (errors: seq<string>)
    ensures |errors| == |BlankAttributes(a)|
    ensures forall i :: 0 <= i < |errors| ==> errors[i] == BlankAttributes(a)[i].FullMessage()
    ensures errors == [] <==> Complete(a)
  {
    var blanks := BlankAttributes(a);
    assert Complete(a) <==> !Missing(a, Lat) && !Missing(a, Lon) && !Missing(a, Name) && !Missing(a, StartedAt);
    seq(|blanks|, i requires 0 <= i < |blanks| => blanks[i].FullMessage())
  }

  /** A message is among the errors exactly when its attribute is blank. */
  lemma MessageIffBlank(a: EventAttrs, q: Required)
    ensures q.FullMessage() in EventErrors(a) <==> Missing(a, q)
  {
    var errors := EventErrors(a);
    var blanks := BlankAttributes(a);
    if q.FullMessage() in errors {
      var i :| 0 <= i < |errors| && errors[i] == q.FullMessage();
      FullMessageInjective(blanks[i], q);
    }
    if q in blanks {
      var i :| 0 <= i < |blanks| && blanks[i] == q;
      assert errors[i] == q.FullMessage();
    }
  }

  /** "Lat can't be blank" and its siblings each appear exactly when their attribute is blank. */
  lemma EventErrorsNameBlanks(a: EventAttrs)
    ensures LatBlank in EventErrors(a) <==> a.lat.None?
    ensures LonBlank in EventErrors(a) <==> a.lon.None?
    ensures NameBlank in EventErrors(a) <==> Blank(a.name)
    ensures StartedAtBlank in EventErrors(a) <==> a.startedAt.None?
  {
    MessageIffBlank(a, Lat);
    MessageIffBlank(a, Lon);
    MessageIffBlank(a, Name);
    MessageIffBlank(a, StartedAt);
  }

  /** A create with no attributes at all is refused with all four messages, in validation order. */
  lemma EmptyEventErrors()
    ensures EventErrors(EventAttrs(None, None, None, None, None, None)) == [LatBlank, LonBlank, NameBlank, StartedAtBlank]
  {
    assert BlankAttributes(EventAttrs(None, None, None, None, None, None)) == [Lat, Lon, Name, StartedAt];
  }

  /** Only a blank name: the single message "Name can't be blank". */
  lemma OnlyNameBlank(a: EventAttrs)
    requires a.lat.Some? && a.lon.Some? && a.startedAt.Some? && a.name.None?
    ensures EventErrors(a) == [NameBlank]
  {
    assert BlankAttributes(a) == [Name];
  }

  /** `event.owner`: the user whose id is the event's `user_id`. */
  function Owner(users: seq<UserRow>, e: EventRow): (r: Option<UserRow>)
    ensures r.Some? <==> exists u :: u in users && u.id == e.userId
    ensures r.Some? ==> r.value in users && r.value.id == e.userId
  {
    UserById(users, e.userId)
  }

  /** `event.attendances`: the attendance rows whose `event_id` is the event's id, in table order. */
  function AttendancesOf(attendances: seq<AttendanceRow>, e: EventRow): (r: seq<AttendanceRow>)
    ensures forall a :: a in r <==> a in attendances && a.eventId == e.id
    ensures |r| <= |attendances|
  {
    if attendances == [] then []
    else
      var rest := AttendancesOf(attendances[1..], e);
      assert forall a :: a in attendances <==> a == attendances[0] || a in attendances[1..];
      if attendances[0].eventId == e.id then [attendances[0]] + rest else rest
  }

  /** The users the given attendances point at, in attendance order. */
  function UsersOfAttendances(users: seq<UserRow>, attendances: seq<AttendanceRow>): (r: seq<UserRow>)
    ensures forall u :: u in r ==> u in users && exists a :: a in attendances && a.userId == u.id
    ensures forall a :: a in attendances && UserById(users, a.userId).Some? ==> UserById(users, a.userId).value in r
  {
    if attendances == [] then []
    else
      var rest := UsersOfAttendances(users, attendances[1..]);
      assert forall a :: a in attendances <==> a == attendances[0] || a in attendances[1..];
      match UserById(users, attendances[0].userId)
      case None => rest
      case Some(u) => [u] + rest
  }

  /**
   * `event.users` (has_many through attendances): a user is among them
   * exactly when it has an attendance for this event.
   */
  function UsersOf(users: seq<UserRow>, attendances: seq<AttendanceRow>, e: EventRow): (r: seq<UserRow>)
    ensures forall u :: u in r ==>
      u in users && exists a :: a in attendances && a.eventId == e.id && a.userId == u.id
    ensures forall a :: a in attendances && a.eventId == e.id && UserById(users, a.userId).Some? ==>
      UserById(users, a.userId).value in r
  {
    UsersOfAttendances(users, AttendancesOf(attendances, e))
  }
}
