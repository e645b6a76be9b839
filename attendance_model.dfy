/**
 * The Attendance model: an event and a user must both be present, and a
 * user may attend a given event once (uniqueness of `event_id` scoped to
 * `user_id`).
 */
module AttendanceModel {
  import opened Wrappers
  import opened Rows

  const EventBlank: string := "Event can't be blank"
  const UserBlank: string := "User can't be blank"
  const RsvpTaken: string := "Event Can only RSVP once per event"

  /** A stored attendance already joins this event and this user. */
  predicate Taken(attendances: seq<AttendanceRow>, eventId: nat, userId: nat) {
    exists a :: a in attendances && a.eventId == eventId && a.userId == userId
  }

  /**
   * The errors validating `Attendance.new(event: event, user: user)` meets.
   * The uniqueness query compares `user_id` with NULL when there is no user,
   * and no stored row has a NULL user, so only a complete pair can be taken.
   */
  function AttendanceErrors(attendances: seq<AttendanceRow>, event: Option<EventRow>, user: Option<UserRow>): (errors: seq<string>)
    ensures errors == [] <==> event.Some? && user.Some? && !Taken(attendances, event.value.id, user.value.id)
    ensures EventBlank in errors <==> event.None?
    ensures UserBlank in errors <==> user.None?
    ensures RsvpTaken in errors <==> event.Some? && user.Some? && Taken(attendances, event.value.id, user.value.id)
  {
    (if event.None? then [EventBlank] else []) +
    (if user.None? then [UserBlank] else []) +
    (if event.Some? && user.Some? && Taken(attendances, event.value.id, user.value.id) then [RsvpTaken] else [])
  }

  /**
   * The uniqueness is scoped by user: a stored attendance for another pair,
   * whether it shares the event or the user, does not make a new one invalid.
   */
  lemma OtherPairsDoNotBlock(attendances: seq<AttendanceRow>, other: AttendanceRow, event: EventRow, user: UserRow)
    requires other.eventId != event.id || other.userId != user.id
    ensures AttendanceErrors(attendances + [other], Some(event), Some(user)) ==
            AttendanceErrors(attendances, Some(event), Some(user))
  {
    assert Taken(attendances + [other], event.id, user.id) <==> Taken(attendances, event.id, user.id);
  }
}
