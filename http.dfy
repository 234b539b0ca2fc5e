/** The HTTP status codes and request methods that the coordinator and the
    worker exchange (the values of Go's net/http constants). */
module Http {
  const StatusOK: int := 200
  const StatusCreated: int := 201
  const StatusNoContent: int := 204
  const StatusBadRequest: int := 400
  const StatusUnauthorized: int := 401
  const StatusMethodNotAllowed: int := 405

  const MethodGet: string := "GET"
  const MethodPost: string := "POST"
}
