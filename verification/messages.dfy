/** The Redfish error messages the modelled handlers write into a response
    (error_messages.hpp is not part of this model; only the kind and the
    arguments of each message are kept). */
module Messages {

  datatype Error =
    | InternalError
    | ResourceNotFound(resource: string, id: string)
    | PropertyValueIncorrect(property: string, value: string)
    | PropertyValueNotInList(value: string, property: string)
    | ActionParameterNotSupported(value: string, parameter: string)
    | ActionParameterValueNotInList(value: string, parameter: string, action: string)
    | ActionParameterMissing(action: string, parameter: string)
    | InvalidUri(uri: string)
    | CreateLimitReachedForResource
    | PropertyValueError(property: string)
    | OperationFailed
      /** json_util's readJson rejected the request body and wrote its own
          message (json_util is not part of this model). */
    | MalformedRequest
      /** The C++ code dereferences an iterator it has not checked, which is
          undefined behaviour; the model makes it an explicit outcome. */
    | UndefinedBehaviour
}
