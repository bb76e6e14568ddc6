/** Peer identities (`NetworkerID`): opaque handles that carry a display name. */
module Peers {
  import opened Wrappers

  datatype Peer = Peer(handle: nat, displayName: string)

  /** Index i holds the first peer with the given display name. */
  predicate IsFirstNamed(peers: seq<Peer>, name: string, i: int)
  {
    && 0 <= i < |peers|
    && peers[i].displayName == name
    && forall j :: 0 <= j < i ==> peers[j].displayName != name
  }

  /** `peers.first(where: { $0.displayName == name })` */
  function FirstNamed(peers: seq<Peer>, name: string): (r: Option<Peer>)
    ensures r.None? <==> forall i :: 0 <= i < |peers| ==> peers[i].displayName != name
    ensures r.Some? ==> exists i :: IsFirstNamed(peers, name, i) && peers[i] == r.value
  {
    if |peers| == 0 then None
    else if peers[0].displayName == name then
      assert IsFirstNamed(peers, name, 0);
      Some(peers[0])
    else
      var r := FirstNamed(peers[1..], name);
      if r.Some? then
        var i :| IsFirstNamed(peers[1..], name, i) && peers[1..][i] == r.value;
        assert IsFirstNamed(peers, name, i + 1);
        r
      else
        r
  }

  /** The first peer with a name is the one `first(where:)` finds. */
  lemma FirstNamedAt(peers: seq<Peer>, name: string, i: int)
    requires IsFirstNamed(peers, name, i)
    ensures FirstNamed(peers, name) == Some(peers[i])
  {
    var r := FirstNamed(peers, name);
    assert r.Some?;
    var j :| IsFirstNamed(peers, name, j) && peers[j] == r.value;
    assert !(j < i) && !(i < j);
  }
}
