/** The ways a prediction request fails (api/index.py:147-150, 177-179). */
module Faults {

  /** Why a request fails; FastAPI answers every one of them with HTTP status 500. */
  datatype Fault = NotLoaded | IndexOutOfRange | DimensionMismatch
  {
    function Status(): int { 500 }
  }
}
