/**
 * The JSON answers of the three controllers, reduced to the status code and
 * the fields a client acts on.  Message texts are left out.
 */
module Http {
  import opened Wrappers
  import opened Store
  import Otp

  datatype Reply =
    | OtpSent(maskedPhone: Option<string>)   // code stored and handed to the SMS gateway or the mailer
    | DeliveryFailed                          // the SMS gateway or the mailer failed
    | ServerError                             // the controller's catch-all (`catch (\Exception $e)`)
    | Invalid                                 // a validation failure answered with 422
    | UnknownPrincipal                        // the lookup found no record
    | OtpExpired
    | OtpInvalid
    | BadCredentials
    | Authenticated(token: Token, registrationKey: Option<nat>)
    | CompleteRegistration                    // `registration_key` 2: verified, no e-mail yet, no token
    | Registered(token: Token)
    | Created
    | Forbidden
    | Unauthorized
    | WrongCurrentPassword
    | PasswordChanged

  datatype Response = Response(status: int, reply: Reply)

  /** The answer a verification gives for a verdict; `onSuccess` is the answer to an accepted code. */
  function VerdictResponse(v: Otp.Verdict, onSuccess: Response): (r: Response)
    ensures r.status == 200 <==> v == Otp.Accepted && onSuccess.status == 200
    ensures v != Otp.Accepted ==> r.status == 401
  {
    match v
    case TimedOut => Response(401, OtpExpired)
    case Mismatch => Response(401, OtpInvalid)
    case Accepted => onSuccess
  }
}
