/** The error a route handler raises as an HTTPException: a status code and its detail text. */
module Http {

  datatype HttpError = HttpError(status: int, detail: string)
}
