/** Results shared by the components: optional values and the gRPC status codes the handlers return. */
module Wrappers {

  datatype Option<+T> = None | Some(value: T)

  datatype Status = Ok | InvalidArgument | NotFound | AlreadyExists | Internal

  datatype Result<+T> = Success(value: T) | Failure(error: Status)
}
