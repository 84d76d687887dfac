/** The serverless e-mail endpoint (api/send-email.ts). The e-mail provider
    is an oracle: what its `send` call did for this request. The status code
    returned here is what the outbox drain reads as `response.ok`. */
module SendEmail {
  import opened Wrappers
  import Sync

  const Sender: string := "System przeglądów fiskalnych <przeglądy@rejestratory.info>"

  /** The four CORS headers every response carries, set before anything else. */
  const CorsHeaders: seq<(string, string)> := [
    ("Access-Control-Allow-Credentials", "true"),
    ("Access-Control-Allow-Origin", "*"),
    ("Access-Control-Allow-Methods", "GET,OPTIONS,PATCH,DELETE,POST,PUT"),
    ("Access-Control-Allow-Headers",
     "X-CSRF-Token, X-Requested-With, Accept, Accept-Version, Content-Length, Content-MD5, Content-Type, Date, X-Api-Version")
  ]

  /** What the provider's `emails.send` did: resolved with data, resolved
      with an error, or threw. */
  datatype ProviderOutcome = Accepted | Rejected | Crashed

  /** The provider request: the fixed sender plus the body's four fields. */
  datatype ProviderRequest = ProviderRequest(from: string, email: Sync.Email)

  /** The response: headers, status, and the provider call made (if any). */
  datatype Response = Response(headers: seq<(string, string)>, status: int, providerCall: Option<ProviderRequest>)

  /** `handler(req, res)` for a request with the given method and body. */
  function Handler(verb: string, body: Sync.Email, provider: ProviderOutcome): (r: Response)
    ensures r.headers == CorsHeaders
    ensures verb == "OPTIONS" ==> r.status == 200 && r.providerCall.None?
    ensures verb != "OPTIONS" && verb != "POST" ==> r.status == 405 && r.providerCall.None?
    ensures verb == "POST" ==> r.providerCall == Some(ProviderRequest(Sender, body))
    ensures verb == "POST" ==>
      r.status == (match provider case Accepted => 200 case Rejected => 400 case Crashed => 500)
  {
    if verb == "OPTIONS" then Response(CorsHeaders, 200, None)
    else if verb != "POST" then Response(CorsHeaders, 405, None)
    else
      var call := Some(ProviderRequest(Sender, body));
      match provider
      case Rejected => Response(CorsHeaders, 400, call)
      case Crashed => Response(CorsHeaders, 500, call)
      case Accepted => Response(CorsHeaders, 200, call)
  }

  /** The drain's success signal: a POST to this endpoint counts as
      delivered exactly when the provider accepted the e-mail, and the
      provider then received the body verbatim. */
  lemma DeliveredIffAccepted(body: Sync.Email, provider: ProviderOutcome)
    ensures var r := Handler("POST", body, provider);
            Sync.Delivered(Sync.Responded(r.status)) <==> provider == Accepted
  {
  }

  /** Any request whose method is not POST never reaches the provider and never
      reads as delivered. */
  lemma NonPostNeverDelivers(verb: string, body: Sync.Email, provider: ProviderOutcome)
    requires verb != "POST"
    ensures var r := Handler(verb, body, provider);
            r.providerCall.None? && (Sync.Delivered(Sync.Responded(r.status)) <==> verb == "OPTIONS")
  {
  }
}
