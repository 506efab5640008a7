/** What the exact-identity classification of a domain listing means, and when it authorizes an undefine. */
module DomainIdentity {
  import opened DeleteHost

  /** This entry is the expected domain, and no other entry has its name or its UUID. */
  predicate OnlyAt(domains: seq<Domain>, id: Identity, i: int) {
    && 0 <= i < |domains| && domains[i].name == id.name && domains[i].uuid == id.uuid
    && forall j :: 0 <= j < |domains| && j != i ==> domains[j].name != id.name && domains[j].uuid != id.uuid
  }

  predicate Unmentioned(domains: seq<Domain>, id: Identity) {
    forall i :: 0 <= i < |domains| ==> domains[i].name != id.name && domains[i].uuid != id.uuid
  }

  lemma {:induction false} NoneFound(domains: seq<Domain>, id: Identity)
    ensures WithName(domains, id.name) == [] && WithUuid(domains, id.uuid) == [] <==> Unmentioned(domains, id)
  {
    if domains != [] {
      NoneFound(domains[1..], id);
      assert forall i :: 0 < i < |domains| ==> domains[i] == domains[1..][i - 1];
    }
  }

  lemma OnlyInRest(domains: seq<Domain>, id: Identity, i: nat)
    requires domains != [] && domains[0].name != id.name && domains[0].uuid != id.uuid
    ensures OnlyAt(domains, id, i + 1) <==> OnlyAt(domains[1..], id, i)
  {
    assert forall j :: 0 < j < |domains| ==> domains[j] == domains[1..][j - 1];
  }

  /** One match by name and one by UUID with the same summary. */
  predicate ExactMatch(domains: seq<Domain>, id: Identity) {
    var names, uuids := WithName(domains, id.name), WithUuid(domains, id.uuid);
    |names| == 1 && |uuids| == 1 && SameSummary(names[0], uuids[0])
  }

  lemma ListedWith(domains: seq<Domain>, id: Identity)
    requires domains != []
    ensures domains[0].name == id.name ==> WithName(domains, id.name) == [domains[0]] + WithName(domains[1..], id.name)
    ensures domains[0].uuid == id.uuid ==> WithUuid(domains, id.uuid) == [domains[0]] + WithUuid(domains[1..], id.uuid)
    ensures domains[0].name != id.name ==> WithName(domains, id.name) == WithName(domains[1..], id.name)
    ensures domains[0].uuid != id.uuid ==> WithUuid(domains, id.uuid) == WithUuid(domains[1..], id.uuid)
  {
    assert [] + WithName(domains[1..], id.name) == WithName(domains[1..], id.name);
    assert [] + WithUuid(domains[1..], id.uuid) == WithUuid(domains[1..], id.uuid);
  }

  lemma {:induction false} FoundHaveThem(domains: seq<Domain>, id: Identity)
    ensures WithName(domains, id.name) != [] ==> WithName(domains, id.name)[0].name == id.name
    ensures WithUuid(domains, id.uuid) != [] ==> WithUuid(domains, id.uuid)[0].uuid == id.uuid
  {
    if domains != [] {
      FoundHaveThem(domains[1..], id);
      ListedWith(domains, id);
    }
  }

  lemma MatchAtHead(domains: seq<Domain>, id: Identity)
    requires domains != [] && (domains[0].name == id.name || domains[0].uuid == id.uuid)
    ensures ExactMatch(domains, id) <==> OnlyAt(domains, id, 0)
    ensures forall i :: OnlyAt(domains, id, i) ==> i == 0
    ensures ExactMatch(domains, id) ==> WithName(domains, id.name)[0] == domains[0]
  {
    var rest := domains[1..];
    hide WithName, WithUuid;
    ListedWith(domains, id);
    FoundHaveThem(domains, id);
    NoneFound(rest, id);
    assert forall j :: 0 < j < |domains| ==> domains[j] == rest[j - 1];
  }

  /** The two matches agree exactly when some entry is the only one to have the name or the UUID. */
  lemma {:induction false} MatchIff(domains: seq<Domain>, id: Identity)
    ensures ExactMatch(domains, id) <==> exists i :: OnlyAt(domains, id, i)
    ensures forall i :: OnlyAt(domains, id, i) ==>
              ExactMatch(domains, id) && WithName(domains, id.name)[0] == domains[i]
  {
    if domains != [] {
      var head, rest := domains[0], domains[1..];
      if head.name == id.name || head.uuid == id.uuid {
        MatchAtHead(domains, id);
      } else {
        MatchIff(rest, id);
        ListedWith(domains, id);
        hide WithName, WithUuid;
        forall i | OnlyAt(domains, id, i)
          ensures ExactMatch(domains, id) && WithName(domains, id.name)[0] == domains[i] {
          OnlyInRest(domains, id, i - 1);
          assert OnlyAt(rest, id, i - 1) && rest[i - 1] == domains[i];
        }
        if ExactMatch(domains, id) {
          var i :| OnlyAt(rest, id, i);
          OnlyInRest(domains, id, i);
          assert OnlyAt(domains, id, i + 1);
        }
      }
    }
  }

  /**
   Exact identity: a listing is classified as the exact domain if and only if one entry has both its
   name and its UUID and no other entry has either; as absent if and only if no entry has either; and
   an undefine is authorized exactly for such an entry that is persistent and shut off.
   */
  lemma ClassifiedIff(id: Identity, domains: seq<Domain>)
    ensures ClassifyObservation(id, domains).ExactPresent? <==> exists i :: OnlyAt(domains, id, i)
    ensures ClassifyObservation(id, domains) == Absent <==> Unmentioned(domains, id)
    ensures AuthorizeUndefine(id, ClassifyObservation(id, domains)).Success?
       <==> exists i :: OnlyAt(domains, id, i) && domains[i].persistent && domains[i].state == Shutoff
  {
    hide WithName, WithUuid, SameSummary;
    MatchIff(domains, id);
    NoneFound(domains, id);
    if ExactMatch(domains, id) {
      var i :| OnlyAt(domains, id, i);
      assert WithName(domains, id.name)[0] == domains[i];
    }
  }
}
