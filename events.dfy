/** Entries of the user activity feed (`Event`), without their clock time stamp. */
module Events {

  datatype EventType = Like | Friend | Review

  datatype Operation = Add | Remove | Update

  /** Who did what to which entity; the `new Date()` time stamp is the clock's and is left out. */
  datatype Event = Event(userId: int, entityId: int, eventType: EventType, operation: Operation)
}
