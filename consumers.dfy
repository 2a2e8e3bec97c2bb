/**
 * The chat consumer's authentication gate: a websocket connection starts
 * unauthenticated, is authenticated by the first frame that carries
 * `"authenticated": "true"`, and from then on echoes every frame it receives.
 * Frames that arrive before that are answered with an error frame and dropped.
 * The socket's output is modelled as the sequence of frames sent on it.
 */
module Consumers {

  /** A decoded JSON value. */
  datatype JValue =
    | JString(s: string)
    | JInt(i: int)
    | JBool(b: bool)
    | JNull
    | JArray(items: seq<JValue>)
    | JObject(fields: map<string, JValue>)

  /** The content of a received frame: a decoded JSON object. */
  type Content = map<string, JValue>

  /**
   * The frame sent to an unauthenticated peer. The error object is serialised
   * to text first and that text is then sent as JSON, so the peer receives a
   * JSON string, not an object; its error code is the literal 1.
   */
  const UnauthenticatedFrame: JValue := JString("{\"error\": 1, \"text\": \"unauthenticated!\"}")

  /**
   * Because of the double encoding, the error frame is a JSON string and never an
   * object, so it can never be mistaken for the echo of a received frame.
   */
  lemma UnauthenticatedFrameIsNeverAnEcho(content: Content)
    ensures UnauthenticatedFrame.JString?
    ensures UnauthenticatedFrame != JObject(content)
  {
  }

  /** A frame authenticates the connection when its `authenticated` field is the string `"true"`. */
  predicate CarriesAuthentication(content: Content)
  {
    "authenticated" in content && content["authenticated"] == JString("true")
  }

  /** What one validation does: whether it accepts, the flag afterwards, and what it sends. */
  datatype Verdict = Verdict(accepted: bool, authenticated: bool, emitted: seq<JValue>)

  /** The session after some frames: the flag and everything sent so far. */
  datatype Session = Session(authenticated: bool, sent: seq<JValue>)

  /** Validating a frame on a connection whose flag is `authenticated`. */
  function Validate(authenticated: bool, content: Content): (v: Verdict)
    ensures v.accepted <==> authenticated || CarriesAuthentication(content)
    ensures v.authenticated <==> authenticated || CarriesAuthentication(content)
    ensures v.accepted ==> v.emitted == []
    ensures !v.accepted ==> v.emitted == [UnauthenticatedFrame]
  {
    if authenticated then Verdict(true, true, [])
    else if CarriesAuthentication(content) then Verdict(true, true, [])
    else Verdict(false, false, [UnauthenticatedFrame])
  }

  /** Receiving a frame: validate it, and echo it back as it came when it was accepted. */
  function Receive(authenticated: bool, content: Content): (s: Session)
    ensures s.authenticated <==> authenticated || CarriesAuthentication(content)
    ensures s.authenticated ==> s.sent == [JObject(content)]
    ensures !s.authenticated ==> s.sent == [UnauthenticatedFrame]
  {
    var v := Validate(authenticated, content);
    Session(v.authenticated, v.emitted + if v.accepted then [JObject(content)] else [])
  }

  /** Receiving `frames` one after another, starting with flag `authenticated`. */
  function Run(authenticated: bool, frames: seq<Content>): (s: Session)
    ensures authenticated ==> s.authenticated
    ensures |s.sent| == |frames|
    decreases |frames|
  {
    if frames == [] then Session(authenticated, [])
    else
      var first := Receive(authenticated, frames[0]);
      var rest := Run(first.authenticated, frames[1..]);
      Session(rest.authenticated, first.sent + rest.sent)
  }

  /** The echo of each frame, in order. */
  function Echoes(frames: seq<Content>): (r: seq<JValue>)
    ensures |r| == |frames|
    ensures forall i :: 0 <= i < |frames| ==> r[i] == JObject(frames[i])
  {
    if frames == [] then [] else [JObject(frames[0])] + Echoes(frames[1..])
  }

  /** `n` error frames. */
  function Errors(n: nat): (r: seq<JValue>)
    ensures |r| == n
    ensures forall i :: 0 <= i < n ==> r[i] == UnauthenticatedFrame
  {
    if n == 0 then [] else [UnauthenticatedFrame] + Errors(n - 1)
  }

  /** The position of the first frame that authenticates, or `|frames|` when none does. */
  function FirstAuthenticating(frames: seq<Content>): (k: nat)
    ensures k <= |frames|
    ensures forall i :: 0 <= i < k ==> !CarriesAuthentication(frames[i])
    ensures k < |frames| ==> CarriesAuthentication(frames[k])
  {
    if frames == [] then 0
    else if CarriesAuthentication(frames[0]) then 0
    else 1 + FirstAuthenticating(frames[1..])
  }

  /** The flag never goes back to false, and it is set exactly when a frame authenticates or it was already set. */
  lemma {:induction false} RunAuthenticatedIsMonotone(authenticated: bool, frames: seq<Content>)
    ensures Run(authenticated, frames).authenticated <==>
              authenticated || exists i :: 0 <= i < |frames| && CarriesAuthentication(frames[i])
    decreases |frames|
  {
    if frames != [] {
      var first := Receive(authenticated, frames[0]);
      RunAuthenticatedIsMonotone(first.authenticated, frames[1..]);
      if exists i :: 0 <= i < |frames[1..]| && CarriesAuthentication(frames[1..][i]) {
        var i :| 0 <= i < |frames[1..]| && CarriesAuthentication(frames[1..][i]);
        assert CarriesAuthentication(frames[i + 1]);
      }
      if exists i :: 0 <= i < |frames| && CarriesAuthentication(frames[i]) {
        var i :| 0 <= i < |frames| && CarriesAuthentication(frames[i]);
        if i > 0 {
          assert CarriesAuthentication(frames[1..][i - 1]);
        }
      }
    }
  }

  /** An authenticated connection echoes every frame, in order, and sends nothing else. */
  lemma {:induction false} RunFromAuthenticated(frames: seq<Content>)
    ensures Run(true, frames) == Session(true, Echoes(frames))
    decreases |frames|
  {
    if frames != [] {
      RunFromAuthenticated(frames[1..]);
    }
  }

  /**
   * A fresh connection answers every frame before the first authenticating one
   * with an error frame, then echoes that frame and every later one.
   */
  lemma {:induction false} RunFromUnauthenticated(frames: seq<Content>)
    ensures Run(false, frames).authenticated <==> FirstAuthenticating(frames) < |frames|
    ensures Run(false, frames).sent ==
              Errors(FirstAuthenticating(frames)) + Echoes(frames[FirstAuthenticating(frames)..])
    decreases |frames|
  {
    if frames != [] {
      if CarriesAuthentication(frames[0]) {
        RunFromAuthenticated(frames[1..]);
        assert frames[0..] == frames;
      } else {
        RunFromUnauthenticated(frames[1..]);
        RunRejectsFirst(frames);
        var k := FirstAuthenticating(frames[1..]);
        assert frames[1..][k..] == frames[k + 1..];
        ErrorsPrepend(k, Echoes(frames[k + 1..]));
      }
    }
  }

  /** A rejected first frame contributes one error frame and leaves the flag false. */
  lemma RunRejectsFirst(frames: seq<Content>)
    requires frames != [] && !CarriesAuthentication(frames[0])
    ensures Run(false, frames) ==
              Session(Run(false, frames[1..]).authenticated, [UnauthenticatedFrame] + Run(false, frames[1..]).sent)
    ensures FirstAuthenticating(frames) == FirstAuthenticating(frames[1..]) + 1
  {
    assert Receive(false, frames[0]) == Session(false, [UnauthenticatedFrame]);
  }

  /** One more error frame in front. */
  lemma ErrorsPrepend(k: nat, tail: seq<JValue>)
    ensures Errors(k + 1) + tail == [UnauthenticatedFrame] + (Errors(k) + tail)
  {
    assert Errors(k + 1) == [UnauthenticatedFrame] + Errors(k);
  }

  /** A websocket connection with its authentication flag and the frames sent on it. */
  class ChatConsumer {
    var authenticated: bool
    var sent: seq<JValue>

    /** A new connection is unauthenticated and has sent nothing. */
    constructor()
      ensures !authenticated && sent == []
    {
      authenticated := false;
      sent := [];
    }

    /** Marks the connection authenticated; nothing is sent. */
    method SetAuthenticated()
      modifies this
      ensures authenticated && sent == old(sent)
    {
      authenticated := true;
    }

    /** Checks a frame, authenticating on it when it carries authentication, and sends the error frame otherwise. */
    method ValidateAuthenticated(content: Content) returns (ok: bool)
      modifies this
      ensures var v := Validate(old(authenticated), content);
              ok == v.accepted && authenticated == v.authenticated && sent == old(sent) + v.emitted
    {
      if authenticated {
        return true;
      }
      if CarriesAuthentication(content) {
        authenticated := true;
        return true;
      }
      sent := sent + [UnauthenticatedFrame];
      return false;
    }

    /** Handles a received frame: echoes it when the gate lets it through. */
    method ReceiveJson(content: Content)
      modifies this
      ensures var s := Receive(old(authenticated), content);
              authenticated == s.authenticated && sent == old(sent) + s.sent
    {
      var ok := ValidateAuthenticated(content);
      if ok {
        sent := sent + [JObject(content)];
      }
    }
  }
}
