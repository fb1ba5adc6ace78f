/** The application's error vocabulary (app.py): `WhisperAIError`, the ordered classifier
    `ErrorHandler.handle_api_error`, and the `error_handler` decorator that turns every
    exception into `None`. Logging and the Streamlit messages are not modelled. */
module Errors {
  import opened Wrappers
  import opened Text

  /** `WhisperAIError(message, error_type, details)`. */
  datatype AppError = AppError(message: string, errorType: string, details: Option<string>)

  /** The six answers of `handle_api_error`, in the order they are tried. */
  datatype ApiErrorKind = InvalidKey | QuotaExceeded | AccessDenied | TimedOut | NetworkProblem | Generic

  predicate MentionsInvalidKey(e: string) { Contains(e, "401") || Contains(e, "unauthorized") }
  predicate MentionsQuota(e: string) { Contains(e, "429") || Contains(e, "rate limit") }
  predicate MentionsAccess(e: string) { Contains(e, "403") || Contains(e, "forbidden") }
  predicate MentionsTimeout(e: string) { Contains(e, "timeout") }
  predicate MentionsNetwork(e: string) { Contains(e, "network") || Contains(e, "connection") }

  /** The first test that matches the lower-cased message decides; a message that matches
      none of them is generic. */
  function ClassifyApiError(message: string): (k: ApiErrorKind)
    ensures var e := Lower(message);
      && (k == InvalidKey <==> MentionsInvalidKey(e))
      && (k == QuotaExceeded <==> !MentionsInvalidKey(e) && MentionsQuota(e))
      && (k == AccessDenied <==> !MentionsInvalidKey(e) && !MentionsQuota(e) && MentionsAccess(e))
      && (k == TimedOut <==> !MentionsInvalidKey(e) && !MentionsQuota(e) && !MentionsAccess(e)
                             && MentionsTimeout(e))
      && (k == Generic <==> !MentionsInvalidKey(e) && !MentionsQuota(e) && !MentionsAccess(e)
                            && !MentionsTimeout(e) && !MentionsNetwork(e))
  {
    var e := Lower(message);
    if MentionsInvalidKey(e) then InvalidKey
    else if MentionsQuota(e) then QuotaExceeded
    else if MentionsAccess(e) then AccessDenied
    else if MentionsTimeout(e) then TimedOut
    else if MentionsNetwork(e) then NetworkProblem
    else Generic
  }

  /** The symbol each answer of `handle_api_error` starts with. */
  function Icon(k: ApiErrorKind): char
  {
    match k
    case InvalidKey => '🔑'
    case QuotaExceeded => '⏰'
    case AccessDenied => '🚫'
    case TimedOut => '⏱'
    case NetworkProblem => '🌐'
    case Generic => '🔧'
  }

  /** `handle_api_error`: the user-facing text for a raw error message. Its first symbol
      tells the classification apart (no two kinds share one), and only the generic answer
      repeats the raw message. */
  function HandleApiError(message: string): (r: string)
    ensures |r| > 0 && r[0] == Icon(ClassifyApiError(message))
    ensures ClassifyApiError(message) == Generic ==> r == "🔧 API Hatası: " + message
  {
    var k := ClassifyApiError(message);
    [Icon(k)] +
    match k
    case InvalidKey => " API anahtarınız geçersiz. Lütfen .env dosyanızı kontrol edin."
    case QuotaExceeded => " API kullanım limiti aşıldı. Lütfen bir süre bekleyin."
    case AccessDenied => " Bu API anahtarıyla erişim izniz yok."
    case TimedOut => "\U{FE0F} İstek zaman aşımına uğradı. Lütfen tekrar deneyin."
    case NetworkProblem => " İnternet bağlantı sorunu. Lütfen bağlantınızı kontrol edin."
    case Generic => " API Hatası: " + message
  }

  /** Distinct classifications give distinct answers. */
  lemma AnswersTellKindsApart(m1: string, m2: string)
    requires ClassifyApiError(m1) != ClassifyApiError(m2)
    ensures HandleApiError(m1) != HandleApiError(m2)
  {
    var r1, r2 := HandleApiError(m1), HandleApiError(m2);
    IconsDiffer(ClassifyApiError(m1), ClassifyApiError(m2));
    assert r1[0] != r2[0];
  }

  /** No two kinds share a symbol. */
  lemma IconsDiffer(k1: ApiErrorKind, k2: ApiErrorKind)
    requires k1 != k2
    ensures Icon(k1) != Icon(k2)
  {
  }

  /** The ordering matters: a message that mentions both an invalid key and a quota is
      reported as an invalid key, and one that mentions both a timeout and the network as
      a timeout. */
  lemma EarlierTestWins(message: string)
    ensures MentionsInvalidKey(Lower(message)) ==> ClassifyApiError(message) == InvalidKey
    ensures !MentionsInvalidKey(Lower(message)) && !MentionsQuota(Lower(message))
            && !MentionsAccess(Lower(message)) && MentionsTimeout(Lower(message))
            ==> ClassifyApiError(message) == TimedOut
    ensures ClassifyApiError(message) == NetworkProblem ==> MentionsNetwork(Lower(message))
  {
  }

  /** The `error_handler` decorator: a normal return passes through, any exception is
      logged and becomes `None`. */
  function Guarded<T, E>(outcome: Result<T, E>): (r: Option<T>)
    ensures r.Some? <==> outcome.Success?
    ensures r.Some? ==> r.value == outcome.value
  {
    match outcome
    case Success(v) => Some(v)
    case Failure(_) => None
  }
}
