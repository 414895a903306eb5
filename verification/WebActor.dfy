/** The write-web agent as a client of the mandate table. */
module WebActor {
  import opened Wrappers
  import opened IsoTime
  import opened Mandates

  /** What is outside this model: how a host is read off a URL, how a domain
      entry is trimmed and lower-cased, which URLs outbound policy lets through. */
  datatype Net = Net(host: string -> string, canon: string -> string, outbound: string -> bool)

  predicate EndsWith(s: string, suffix: string) {
    |suffix| <= |s| && s[|s| - |suffix|..] == suffix
  }

  predicate WithinAllowedDomains(net: Net, url: string, domains: seq<string>) {
    var host := net.host(url);
    host != "" && exists d | d in domains && d != "" :: host == net.canon(d) || EndsWith(host, "." + net.canon(d))
  }

  /** The two kill switches. */
  datatype Flags = Flags(enabled: bool, commitEnabled: bool)

  /** The payload after trimming. */
  datatype Payload = Payload(action: string, url: string, mandateId: string, nonce: string)

  datatype Reply =
    | Refused(code: string)
    | Interacted
    | Previewed(grant: Grant)
    | Rehearsed(grant: Grant)
    | Committed(id: string, maxSpendCents: nat)

  /** When a call commits, said of the table before it. */
  predicate MayCommit(net: Net, flags: Flags, p: Payload, t: Table, now: Stamp) {
    && flags.enabled && flags.commitEnabled && p.action == "commit"
    && (p.url == "" || net.outbound(p.url))
    && p.mandateId != "" && p.mandateId in t
    && WithinAllowedDomains(net, p.url, t[p.mandateId].grant.domains)
    && p.nonce != ""
    && t[p.mandateId].status == Authorized
    && t[p.mandateId].nonce == Some(p.nonce)
    && Less(Iso(now), t[p.mandateId].expiresAt)
  }

  /** `run` with nobody interleaving; the browser session of interact and
      dry_run is a given outcome. Only a commit changes the table, and it
      changes that one row. */
  method Run(store: MandateStore, net: Net, flags: Flags, p: Payload, sessionOk: bool, resolved: Stamp, now: Stamp)
    returns (r: Reply)
    modifies store
    ensures r.Committed? <==> MayCommit(net, flags, p, old(store.rows), now)
    ensures r.Committed? ==> r.id == p.mandateId && r.maxSpendCents == old(store.rows)[p.mandateId].grant.maxSpendCents
    ensures r.Committed? ==> store.rows == old(store.rows)[p.mandateId :=
              old(store.rows)[p.mandateId].(status := Consumed, nonce := None, resolvedAt := Some(Iso(resolved)))]
    ensures !r.Committed? ==> store.rows == old(store.rows)
    ensures r.Previewed? || r.Rehearsed? ==> p.mandateId in store.rows && r.grant == store.rows[p.mandateId].grant
    ensures r.Rehearsed? ==> WithinAllowedDomains(net, p.url, r.grant.domains)
  {
    if !flags.enabled {
      return Refused("web_actor.disabled");
    }
    if p.action !in ["interact", "preview", "dry_run", "commit"] {
      return Refused("web_actor.invalid_action");
    }
    if p.url != "" && !net.outbound(p.url) {
      return Refused("web_actor.url_blocked");
    }
    if p.action == "interact" {
      if p.url == "" {
        return Refused("web_actor.missing_url");
      }
      r := if sessionOk then Interacted else Refused("web_actor.interaction_failed");
      return;
    }
    if p.mandateId == "" {
      r := Refused("web_actor.missing_mandate");
      return;
    }
    var found := store.GetMandate(p.mandateId);
    if found == None {
      return Refused("web_actor.mandate_not_found");
    }
    var mandate := found.value;
    if p.action == "preview" {
      return Previewed(mandate.grant);
    }
    if !WithinAllowedDomains(net, p.url, mandate.grant.domains) {
      return Refused("web_actor.domain_not_allowed");
    }
    if p.action == "dry_run" {
      r := if sessionOk then Rehearsed(mandate.grant) else Refused("web_actor.interaction_failed");
      return;
    }
    if !flags.commitEnabled {
      return Refused("web_actor.commit_disabled");
    }
    if p.nonce == "" {
      return Refused("web_actor.missing_nonce");
    }
    HitsOne(store.rows, Call.Consume(p.mandateId, p.nonce, resolved, now));
    var ok := store.ConsumeMandate(p.mandateId, p.nonce, resolved, now);
    r := if ok then Committed(p.mandateId, mandate.grant.maxSpendCents) else Refused("web_actor.not_authorized");
  }
}
