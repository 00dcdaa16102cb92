/** Removing blocked users from a node configuration by the prefix of their client emails. */
module ClientStrip {
  import opened Options
  import opened Strings

  /** `details` stands for the rest of a client; an absent email reads as "". */
  datatype Client = Client(email: Option<string>, details: int)

  function Email(userId: nat, username: string): string {
    Dec(userId) + "." + username
  }

  function BlockPrefix(userId: nat): string {
    Dec(userId) + "."
  }

  predicate IsBlocked(c: Client, blocked: set<nat>) {
    exists userId :: userId in blocked && BlockPrefix(userId) <= c.email.GetOr("")
  }

  function Stripped(clients: seq<Client>, blocked: set<nat>): seq<Client> {
    if clients == [] then []
    else
      var before, last := Stripped(clients[..|clients| - 1], blocked), clients[|clients| - 1];
      if IsBlocked(last, blocked) then before else before + [last]
  }

  lemma StrippedAppend(clients: seq<Client>, c: Client, blocked: set<nat>)
    ensures Stripped(clients + [c], blocked) ==
            if IsBlocked(c, blocked) then Stripped(clients, blocked) else Stripped(clients, blocked) + [c]
  {
    assert (clients + [c])[..|clients|] == clients;
  }

  // ---- The prefix decides the user

  /** The prefix of one user starts the email of another exactly when they are the same user, whatever the username. */
  lemma PrefixIff(userId: nat, other: nat, username: string)
    ensures BlockPrefix(userId) <= Email(other, username) <==> userId == other
  {
    assert '.' !in Dec(userId) && '.' !in Dec(other);
    DelimitedPrefix(Dec(userId), Dec(other), '.', "", username);
    assert BlockPrefix(userId) == Dec(userId) + ['.'] + "";
    assert Email(other, username) == Dec(other) + ['.'] + username;
    DecInjective(userId, other);
  }

  datatype User = User(id: nat, username: string, details: int)

  function ClientOf(u: User): Client {
    Client(Some(Email(u.id, u.username)), u.details)
  }

  function ClientsOf(users: seq<User>): seq<Client> {
    if users == [] then [] else ClientsOf(users[..|users| - 1]) + [ClientOf(users[|users| - 1])]
  }

  function Allowed(users: seq<User>, blocked: set<nat>): seq<User> {
    if users == [] then []
    else
      var before, last := Allowed(users[..|users| - 1], blocked), users[|users| - 1];
      if last.id in blocked then before else before + [last]
  }

  lemma ClientsAppend(users: seq<User>, u: User)
    ensures ClientsOf(users + [u]) == ClientsOf(users) + [ClientOf(u)]
  {
    assert (users + [u])[..|users|] == users;
  }

  lemma BlockedIff(u: User, blocked: set<nat>)
    ensures IsBlocked(ClientOf(u), blocked) <==> u.id in blocked
  {
    forall userId
      ensures BlockPrefix(userId) <= Email(u.id, u.username) <==> userId == u.id
    {
      PrefixIff(userId, u.id, u.username);
    }
  }

  /** From the clients of some users, exactly those of the blocked users go; the others stay, in order. */
  lemma {:induction false} StripRemovesTheBlocked(users: seq<User>, blocked: set<nat>)
    ensures Stripped(ClientsOf(users), blocked) == ClientsOf(Allowed(users, blocked))
  {
    if users != [] {
      var before, last := users[..|users| - 1], users[|users| - 1];
      StripRemovesTheBlocked(before, blocked);
      StrippedAppend(ClientsOf(before), ClientOf(last), blocked);
      BlockedIff(last, blocked);
      ClientsAppend(Allowed(before, blocked), last);
    }
  }

  /** A client without an email belongs to no user. */
  lemma NoEmailStays(c: Client, blocked: set<nat>)
    requires c.email.GetOr("") == ""
    ensures !IsBlocked(c, blocked)
  {
    forall userId
      ensures !(BlockPrefix(userId) <= "")
    {
      assert |BlockPrefix(userId)| >= 1;
    }
  }

  /** Stripping twice is stripping the users of both sets; stripping nobody changes nothing. */
  lemma {:induction false} StripTwice(clients: seq<Client>, a: set<nat>, b: set<nat>)
    ensures Stripped(Stripped(clients, a), b) == Stripped(clients, a + b)
    ensures Stripped(clients, {}) == clients
  {
    if clients != [] {
      var before, last := clients[..|clients| - 1], clients[|clients| - 1];
      StripTwice(before, a, b);
      assert clients == before + [last];
      assert IsBlocked(last, a + b) <==> IsBlocked(last, a) || IsBlocked(last, b);
      StrippedAppend(Stripped(before, a), last, b);
    }
  }

  // ---- The configuration documents

  class Settings {
    var clients: seq<Client>

    constructor (clients: seq<Client>)
      ensures this.clients == clients
    {
      this.clients := clients;
    }
  }

  class Inbound {
    const tag: string
    var settings: Settings?

    constructor (tag: string, settings: Settings?)
      ensures this.tag == tag && this.settings == settings
    {
      this.tag, this.settings := tag, settings;
    }

    predicate HasClients()
      reads this, settings
    {
      settings != null && settings.clients != []
    }
  }

  method StripClients(clients: seq<Client>, blocked: set<nat>) returns (kept: seq<Client>)
    ensures kept == Stripped(clients, blocked)
  {
    kept := [];
    for i := 0 to |clients|
      invariant kept == Stripped(clients[..i], blocked)
    {
      assert clients[..i + 1][..i] == clients[..i];
      if !(exists userId :: userId in blocked && BlockPrefix(userId) <= clients[i].email.GetOr("")) {
        kept := kept + [clients[i]];
      }
    }
    assert clients[..|clients|] == clients;
  }

  method StripInbound(inbound: Inbound, blocked: set<nat>) returns (r: Inbound)
    ensures inbound.HasClients() ==>
              && fresh(r) && r.tag == inbound.tag
              && r.settings != null && fresh(r.settings)
              && r.settings.clients == Stripped(inbound.settings.clients, blocked)
    ensures inbound.settings == null || inbound.settings.clients == [] ==> r == inbound
  {
    var settings := inbound.settings;
    if settings == null || settings.clients == [] {
      return inbound;
    }
    var kept := StripClients(settings.clients, blocked);
    var copy := new Settings(kept);
    r := new Inbound(inbound.tag, copy);
  }

  predicate StrippedFrom(r: Inbound, inbound: Inbound, blocked: set<nat>)
    reads r, r.settings, inbound, inbound.settings
  {
    if inbound.HasClients()
    then r.tag == inbound.tag && r.settings != null && r.settings.clients == Stripped(inbound.settings.clients, blocked)
    else r == inbound
  }

  /** Nothing that existed before is modified: affected inbounds are replaced by new ones, the others are shared. */
  method StripBlockedClients(inbounds: seq<Inbound>, blocked: set<nat>) returns (r: seq<Inbound>)
    ensures |r| == |inbounds|
    ensures forall i | 0 <= i < |r| :: StrippedFrom(r[i], inbounds[i], blocked)
    ensures forall i | 0 <= i < |r| && (inbounds[i].settings == null || inbounds[i].settings.clients == []) :: r[i] == inbounds[i]
    ensures blocked == {} ==> r == inbounds
    ensures blocked != {} ==> forall i | 0 <= i < |r| && inbounds[i].HasClients() :: fresh(r[i]) && fresh(r[i].settings)
  {
    if blocked == {} {
      forall i | 0 <= i < |inbounds|
        ensures StrippedFrom(inbounds[i], inbounds[i], blocked)
      {
        if inbounds[i].HasClients() {
          StripTwice(inbounds[i].settings.clients, {}, {});
        }
      }
      return inbounds;
    }
    r := [];
    for i := 0 to |inbounds|
      invariant |r| == i
      invariant forall k | 0 <= k < i :: StrippedFrom(r[k], inbounds[k], blocked)
      invariant forall k | 0 <= k < i && inbounds[k].HasClients() :: fresh(r[k]) && fresh(r[k].settings)
    {
      var inbound := StripInbound(inbounds[i], blocked);
      r := r + [inbound];
    }
  }
}
