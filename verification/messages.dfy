/**
 * The messages the service hands back to its callers. Localized texts are
 * looked up by key (`cds.i18n.messages.at(key, locale)`); the lookup itself
 * and the locale are outside the model, so a localized message is identified
 * by its key alone.
 */
module Messages {

  /** The i18n keys the service uses. */
  datatype MessageKey =
    | ErrorWrongYear     // ERROR_WRONG_YEAR: age below the minimum
    | ErrorWrongCpf      // ERROR_WRONG_CPF: CPF fails the check-digit test
    | ErrorApiCep        // ERROR_API_CEP: postal-code service failed without a message
    | ErrorCpfNotFound   // ERROR_CPF_NOT_FOUND
    | ErrorHasAddress    // ERROR_HAS_ADDRESS
    | SuccessDelete      // SUCCESS_DELETE
    | ErrorDeleteFailed  // ERROR_DELETE_FAILED: delete failed without a message

  /** A message as the caller receives it: localized by key, or an upstream text passed through verbatim. */
  datatype Message = Localized(key: MessageKey) | Verbatim(text: string)

  /** `text || localized(key)`: the empty string is falsy in JavaScript, so it falls back to the localized text. */
  function OrLocalized(text: string, key: MessageKey): (m: Message)
    ensures m.Verbatim? <==> text != ""
    ensures m.Verbatim? ==> m.text == text
    ensures m.Localized? ==> m.key == key
  {
    if text != "" then Verbatim(text) else Localized(key)
  }
}
