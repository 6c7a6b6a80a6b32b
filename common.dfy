/** Values shared by every controller: identifiers, the optional value used
    for Java's nullable references and `Optional`, and the HTTP response a
    handler returns (a `ResponseEntity` reduced to its status and body). */
module Common {

  /** A database identifier (a JPA `Long` id generated by the store). */
  type Id = nat

  /** The creation instant of a relation record (`LocalDateTime.now()`),
      supplied by the caller rather than read from a clock. */
  type Timestamp = int

  /** A nullable reference or an `Optional`. */
  datatype Option<+T> = None | Some(value: T)

  /** The HTTP statuses the modelled handlers produce. `InternalServerError`
      is what the framework answers when a handler throws. */
  datatype Status = Ok | Created | BadRequest | NotFound | Conflict | InternalServerError

  /** The body of a `ResponseEntity<?>`: nothing, an entity, or a string
      (which may itself be null) such as the value that caused a conflict. */
  datatype Body<+T> = Empty | Entity(entity: T) | Text(text: Option<string>)

  datatype Response<+T> = Response(status: Status, body: Body<T>)
}
