/**
 * The truth-or-dare endpoint and the prompt lists it draws from.
 */
module Game {
  import opened Wrappers

  /** The `truths` list. */
  const Truths: seq<string> := [
    "What is the most embarrassing thing you've ever done?",
    "Have you ever ghosted someone?",
    "What is a secret you\U{2019}ve never told anyone in this room?",
    "Who is your secret crush?",
    "What is the biggest lie you've ever told?"
  ]

  /** The `dares` list. */
  const Dares: seq<string> := [
    "Do 10 pushups right now.",
    "Text your ex 'I miss you' and send a screenshot.",
    "Let the group choose a song and you have to lip sync to it.",
    "Speak in an accent for the next 3 rounds.",
    "Post a weird selfie on your story and leave it for 1 hour."
  ]

  /** `arr[Math.floor(Math.random() * arr.length)]`: the random index is some index in range,
      chosen here by the verifier's choice operator. An empty list yields `undefined`. */
  method GetRandom(list: seq<string>) returns (x: Option<string>)
    ensures list == [] ==> x == None
    ensures list != [] ==> x.Some? && x.value in list
  {
    if list == [] {
      x := None;
    } else {
      var i :| 0 <= i < |list|;
      x := Some(list[i]);
    }
  }

  const INVALID_TYPE := "Invalid type. Use 'truth' or 'dare'."

  /** The reply of `POST /tod`: status 200 with `{success: true, data: {type, content}}`, or
      status 400 with `{success: false, message}`. */
  datatype TruthOrDareResponse =
    | Ok200(kind: string, content: string)
    | BadRequest400(message: string)
  {
    function Status(): int {
      if Ok200? then 200 else 400
    }
  }

  /** `getTruthOrDare`: the body's `type` must be exactly "truth" or "dare"; the reply echoes it
      with an element of the matching list. */
  method GetTruthOrDare(kind: Option<string>) returns (r: TruthOrDareResponse)
    ensures kind == Some("truth") ==> r.Ok200? && r.kind == "truth" && r.content in Truths
    ensures kind == Some("dare") ==> r.Ok200? && r.kind == "dare" && r.content in Dares
    ensures kind != Some("truth") && kind != Some("dare") ==> r == BadRequest400(INVALID_TYPE)
    ensures r.Status() == 400 <==> kind != Some("truth") && kind != Some("dare")
  {
    if kind == Some("truth") {
      var pick := GetRandom(Truths);
      r := Ok200("truth", pick.value);
    } else if kind == Some("dare") {
      var pick := GetRandom(Dares);
      r := Ok200("dare", pick.value);
    } else {
      r := BadRequest400(INVALID_TYPE);
    }
  }
}
