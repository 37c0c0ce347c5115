/** The exceptions the services and storages throw, as values. */
module Exceptions {

  datatype Error =
    | UnknownUser      // UnknownUserException: no user with that id
    | UnknownFilm      // UnknownFilmException: no film with that id
    | AlreadyExists    // ExistsException: a duplicate entity, like or friendship
    | InvalidValue     // ValidationException: a value breaks a business rule
}
