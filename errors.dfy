/**
 * The exceptions the scheduler raises (schedule_manager/exceptions.py) and the
 * Python built-in errors that the modelled code lets escape.
 */
module Errors {

  datatype Error =
    | OperationFail(reason: Reason)  // OperationFailError
    | TaskNameDuplicate              // TaskNameDuplicateError
    | TaskNotFound                   // TaskNotFoundError
    | TimeFormat                     // TimeFormatError
    | CalendarValue                  // ValueError from datetime.replace: no such date
    | ZeroDivision                   // ZeroDivisionError: dividing by a zero interval
    | MissingValue                   // TypeError: an anchor field read while still None
    | ThreadRestart                  // RuntimeError: a thread can only be started once

  /** Why an OperationFailError was raised. */
  datatype Reason =
    | AlreadyRunning     // configuring a started task
    | NotRunning         // stop/pause of a task that is not running
    | NoManager          // pause of a task that is not registered
    | NoPeriod           // start before any period was set
    | BadCount           // nonperiodic with a count <= 0
    | RunNotStarted      // the worker body entered without start()
    | UseRegister        // the back-reference setter refused the change

  datatype Result<T> = Ok(value: T) | Err(error: Error)

  /** The outcome of an operation that returns nothing, or raises. */
  datatype Outcome = Pass | Fail(error: Error)
}
