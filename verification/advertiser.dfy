/** Advertiser.swift: the host's admission decision for an invitation, which
    carries the inviting client's join code as its context bytes. */
module Admission {
  import opened Wrappers
  import Utf8
  import opened Peers

  /** The one `invitationHandler(accept, session)` call an invitation receives: the
      session offered is the host's own, given as the host's peer identity. */
  datatype Reply = Reply(accept: bool, session: Option<Peer>)

  /** `advertiser(_:didReceiveInvitationFromPeer:withContext:invitationHandler:)` */
  function AnswerInvitation(context: Option<seq<Utf8.Byte>>, joinCode: string, host: Peer): (r: Reply)
    ensures r.accept <==> context.Some? && Utf8.Decode(context.value) == Some(joinCode)
    ensures r.accept ==> r.session == Some(host)
    ensures !r.accept ==> r.session.None?
  {
    match context
    case None => Reply(false, None)
    case Some(bytes) =>
      match Utf8.Decode(bytes)
      case None => Reply(false, None)
      case Some(code) =>
        if code != joinCode then Reply(false, None)
        else Reply(true, Some(host))
  }

  /** A client that sends the UTF-8 bytes of its code is admitted exactly when the
      code equals the host's, character for character (so "4821 " is refused by a
      host whose code is "4821"). */
  lemma AdmissionIsExact(candidate: string, joinCode: string, host: Peer)
    ensures AnswerInvitation(Some(Utf8.Encode(candidate)), joinCode, host).accept <==> candidate == joinCode
  {
    Utf8.DecodeEncode(candidate);
  }
}
