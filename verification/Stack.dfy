/** Stack transactions over a fallible container runtime: `up` undoes what it did when it fails, `down` looks before it
    stops anything, `upgrade_image` rolls back to the old image. */
module Stack {
  import opened Options
  import opened Sequences

  /** Error messages are not modelled. */
  datatype Result<T> = Ok(value: T) | Err

  datatype Connection = Connection(env: string, service: string, scheme: string, port: string, path: string)

  datatype Service = Service(
    name: string, image: string, network: string, egress: bool, env: seq<string>, volumes: seq<string>,
    connections: seq<Connection>)

  /** A container and the service it was created from. */
  datatype Container = Container(image: string, owned: bool, running: bool, spec: Service)

  datatype Status = Status(running: bool, healthy: bool, image: string, owned: bool)

  /** What one request to the runtime comes to. `Half` is a `create` that fails after the container exists, when it
      is being connected to its egress network; every other request has its effect or none. */
  datatype Outcome = Done | Failed | Half
  datatype Step = Step(outcome: Outcome, healthy: bool)

  datatype Event =
    | Seen(name: string, fit: bool)  // inspected, and found running and healthy or not
    | Made(service: Service)
    | Ran(name: string)
    | Halted(name: string)
    | Dropped(name: string)

  /** The event changes the container `name`. */
  predicate Touches(event: Event, name: string) {
    match event
    case Seen(_, _) => false
    case Made(service) => service.name == name
    case Ran(n) => n == name
    case Halted(n) => n == name
    case Dropped(n) => n == name
  }

  /** Every request of the script succeeds, and whatever is running is healthy. */
  ghost predicate Smooth(script: seq<Step>) {
    forall i :: 0 <= i < |script| ==> script[i] == Step(Done, true)
  }

  /** The next `n` requests succeed, and whatever is running is healthy. */
  ghost predicate Fine(script: seq<Step>, n: nat) {
    n <= |script| && forall i :: 0 <= i < n ==> script[i] == Step(Done, true)
  }

  /** After `n` requests without trouble the container of `service` is made and its creation fails. */
  ghost predicate Leaks(script: seq<Step>, n: nat, service: Service) {
    Fine(script, n) && n < |script| && script[n].outcome.Half? && service.egress
  }

  /** `done` requests of the `n` that succeed have been used. */
  ghost predicate Ahead(script: seq<Step>, done: nat, rest: seq<Step>, n: nat) {
    done <= n <= |script| && rest == script[done..]
  }

  lemma FineSplit(script: seq<Step>, k: nat, m: nat)
    ensures Fine(script, k + m) ==>
              Fine(script, k) && Fine(script[k..], m) && script[k..][m..] == script[k + m..]
  {
  }

  lemma LeaksAfter(script: seq<Step>, k: nat, n: nat, service: Service)
    requires k <= n
    ensures Leaks(script, n, service) ==>
              && Fine(script, k) && Leaks(script[k..], n - k, service)
              && Fine(script, n) && Leaks(script[n..], 0, service) && script[n..][1..] == script[n + 1..]
  {
  }

  lemma FineStart(script: seq<Step>, n: nat)
    ensures Fine(script, n) ==> Ahead(script, 0, script, n)
  {
  }

  /** The next `k` of them succeed, and leave the rest. */
  lemma FineAhead(script: seq<Step>, done: nat, rest: seq<Step>, n: nat, k: nat)
    ensures Fine(script, n) && Ahead(script, done, rest, n) && done + k <= n ==>
              Fine(rest, k) && Ahead(script, done + k, rest[k..], n)
  {
  }

  function New(service: Service): Container {
    Container(service.image, true, false, service)
  }

  /** The runtime: its containers, and a script of what each request comes to; a request past its end fails. A script
      that is smooth and does not run out is a runtime without trouble. */
  class Runtime {
    var containers: map<string, Container>
    var script: seq<Step>
    ghost var trace: seq<Event>
    ghost var leaked: seq<string>  // made by a `create` that failed

    constructor (containers: map<string, Container>, script: seq<Step>)
      ensures this.containers == containers && this.script == script && trace == [] && leaked == []
    {
      this.containers, this.script, trace, leaked := containers, script, [], [];
    }

    method Next() returns (step: Step)
      modifies this`script
      ensures |script| <= |old(script)| <= |script| + 1
      ensures step.outcome.Done? ==> |script| < |old(script)|
      ensures old(script) != [] ==> step == old(script)[0] && script == old(script)[1..]
      ensures Smooth(old(script)) ==> Smooth(script) && (script != [] ==> step == Step(Done, true))
    {
      if script == [] {
        return Step(Failed, false);
      }
      step, script := script[0], script[1..];
    }

    /** A request that leaves the containers alone: networks, volumes, images, addresses. */
    method Other() returns (ok: bool)
      modifies this`script
      ensures |script| <= |old(script)|
      ensures Smooth(old(script)) ==> Smooth(script) && (script != [] ==> ok)
      ensures Fine(old(script), 1) ==> ok && script == old(script)[1..]
    {
      var step := Next();
      ok := step.outcome.Done?;
    }

    method Inspect(name: string) returns (r: Result<Option<Status>>)
      modifies this`script, this`trace
      ensures |script| <= |old(script)| && (r.Ok? ==> |script| < |old(script)|)
      ensures r.Err? ==> trace == old(trace)
      ensures r.Ok? ==> (r.value.Some? <==> name in containers)
      ensures r.Ok? && r.value.None? ==> trace == old(trace) + [Seen(name, false)]
      ensures r.Ok? && r.value.Some? ==>
                var v, c := r.value.value, containers[name];
                && v.running == c.running && v.image == c.image && v.owned == c.owned
                && trace == old(trace) + [Seen(name, v.running && v.healthy)]
      ensures Smooth(old(script)) ==>
                Smooth(script) && (script != [] ==> r.Ok? && (r.value.Some? ==> r.value.value.healthy))
      ensures Fine(old(script), 1) ==> r.Ok? && (r.value.Some? ==> r.value.value.healthy) && script == old(script)[1..]
    {
      var step := Next();
      if !step.outcome.Done? {
        return Err;
      }
      if name !in containers {
        trace := trace + [Seen(name, false)];
        return Ok(None);
      }
      var c := containers[name];
      trace := trace + [Seen(name, c.running && step.healthy)];
      return Ok(Some(Status(c.running, step.healthy, c.image, c.owned)));
    }

    method Create(service: Service) returns (ok: bool)
      modifies this
      ensures |script| <= |old(script)|
      ensures ok ==>
                && service.name !in old(containers)
                && containers == old(containers)[service.name := New(service)]
                && trace == old(trace) + [Made(service)] && leaked == old(leaked)
      ensures !ok ==>
                (|| (containers == old(containers) && leaked == old(leaked) && trace == old(trace))
                 || (&& service.egress && service.name !in old(containers)
                     && containers == old(containers)[service.name := New(service)]
                     && trace == old(trace) + [Made(service)] && leaked == old(leaked) + [service.name]))
      ensures Smooth(old(script)) ==> Smooth(script) && (script != [] && service.name !in old(containers) ==> ok)
      ensures Fine(old(script), 1) && service.name !in old(containers) ==> ok && script == old(script)[1..]
      ensures Leaks(old(script), 0, service) && service.name !in old(containers) ==>
                !ok && service.name in containers && script == old(script)[1..]
    {
      var step := Next();
      if service.name in containers || step.outcome.Failed? || (step.outcome.Half? && !service.egress) {
        return false;
      }
      containers := containers[service.name := New(service)];
      trace := trace + [Made(service)];
      if step.outcome.Half? {
        leaked := leaked + [service.name];
      }
      return step.outcome.Done?;
    }

    method Start(name: string) returns (ok: bool)
      modifies this`script, this`containers, this`trace
      ensures |script| <= |old(script)|
      ensures ok ==>
                && name in old(containers)
                && containers == old(containers)[name := old(containers)[name].(running := true)]
                && trace == old(trace) + [Ran(name)]
      ensures !ok ==> containers == old(containers) && trace == old(trace)
      ensures Smooth(old(script)) ==> Smooth(script) && (script != [] && name in old(containers) ==> ok)
      ensures Fine(old(script), 1) && name in old(containers) ==> ok && script == old(script)[1..]
    {
      var step := Next();
      if name !in containers || !step.outcome.Done? {
        return false;
      }
      containers := containers[name := containers[name].(running := true)];
      trace := trace + [Ran(name)];
      return true;
    }

    method Stop(name: string) returns (ok: bool)
      modifies this`script, this`containers, this`trace
      ensures |script| <= |old(script)| <= |script| + 1
      ensures ok ==>
                && name in old(containers)
                && containers == old(containers)[name := old(containers)[name].(running := false)]
                && trace == old(trace) + [Halted(name)]
      ensures !ok ==> containers == old(containers) && trace == old(trace)
      ensures Smooth(old(script)) ==> Smooth(script) && (script != [] && name in old(containers) ==> ok)
    {
      var step := Next();
      if name !in containers || !step.outcome.Done? {
        return false;
      }
      containers := containers[name := containers[name].(running := false)];
      trace := trace + [Halted(name)];
      return true;
    }

    method Remove(name: string) returns (ok: bool)
      modifies this`script, this`containers, this`trace
      ensures |script| <= |old(script)| <= |script| + 1
      ensures ok ==>
                && name in old(containers) && containers == old(containers) - {name}
                && trace == old(trace) + [Dropped(name)]
      ensures !ok ==> containers == old(containers) && trace == old(trace)
      ensures Smooth(old(script)) ==> Smooth(script) && (script != [] && name in old(containers) ==> ok)
    {
      var step := Next();
      if name !in containers || !step.outcome.Done? {
        return false;
      }
      containers := containers - {name};
      trace := trace + [Dropped(name)];
      return true;
    }
  }

  // ----- connections ----------------------------------------------------------------------------------------------

  function Without(env: seq<string>, prefix: string): (kept: seq<string>)
    ensures forall e :: e in kept <==> e in env && !(prefix <= e)
  {
    if env == [] then []
    else
      var kept, last := Without(env[..|env| - 1], prefix), env[|env| - 1];
      if prefix <= last then kept else kept + [last]
  }

  function Entry(c: Connection, host: string): string {
    c.env + "=" + c.scheme + "://" + host + ":" + c.port + c.path
  }

  // Reading an entry back.

  /** The text before and the text behind the first `mark`. */
  function Cut(s: string, mark: char): (string, string) {
    if s == "" || s[0] == mark then ("", if s == "" then "" else s[1..])
    else
      var (before, behind) := Cut(s[1..], mark);
      ([s[0]] + before, behind)
  }

  lemma {:induction false} CutAt(before: string, mark: char, behind: string)
    requires mark !in before
    ensures Cut(before + [mark] + behind, mark) == (before, behind)
  {
    var s := before + [mark] + behind;
    if before == "" {
      assert s[0] == mark && s[1..] == behind;
    } else {
      assert s[0] == before[0] && s[1..] == before[1..] + [mark] + behind;
      CutAt(before[1..], mark, behind);
      assert [before[0]] + before[1..] == before;
    }
  }

  /** What an environment entry says: a variable, and a URL by its scheme, host and the rest. */
  datatype Reading = Reading(variable: string, scheme: string, host: string, rest: string)

  /** A variable up to the first `=`, then a URL: its scheme up to the first colon, two slashes, its host up to the next
      colon, and the port and path behind that. */
  function ReadEntry(entry: string): Option<Reading> {
    var (variable, url) := Cut(entry, '=');
    var (scheme, tail) := Cut(url, ':');
    if |tail| < 2 || tail[..2] != "//" then None
    else
      var (host, rest) := Cut(tail[2..], ':');
      Some(Reading(variable, scheme, host, rest))
  }

  /** An entry holds its variable and the URL of the address, with the scheme, port and path of the connection. */
  lemma EntryReads(c: Connection, host: string)
    requires '=' !in c.env && ':' !in c.scheme && ':' !in host
    ensures ReadEntry(Entry(c, host)) == Some(Reading(c.env, c.scheme, host, c.port + c.path))
  {
    var authority := host + ":" + (c.port + c.path);
    var tail := "//" + authority;
    var url := c.scheme + ":" + tail;
    assert Entry(c, host) == c.env + "=" + url;
    CutAt(c.env, '=', url);
    CutAt(c.scheme, ':', tail);
    assert tail[..2] == "//" && tail[2..] == authority;
    CutAt(host, ':', c.port + c.path);
  }

  /** Two versions of a service that differ at most in their environment. */
  predicate SameButEnv(a: Service, b: Service) {
    a.(env := b.env) == b
  }

  ghost predicate SeenFit(trace: seq<Event>, from: nat, to: nat, name: string) {
    exists k :: from <= k < to <= |trace| && trace[k] == Seen(name, true)
  }

  ghost predicate DependenciesSeen(trace: seq<Event>, from: nat, to: nat, connections: seq<Connection>) {
    forall i :: 0 <= i < |connections| ==> SeenFit(trace, from, to, connections[i].service)
  }

  /** Every container made since `from` was made after its dependencies had been seen running and healthy. */
  ghost predicate MadeInOrder(trace: seq<Event>, from: nat) {
    forall k :: from <= k < |trace| && trace[k].Made? ==>
      DependenciesSeen(trace, from, k, trace[k].service.connections)
  }

  /** The service was seen running and healthy after it was last touched. */
  ghost predicate Passed(trace: seq<Event>, from: nat, name: string) {
    exists k :: from <= k < |trace| && trace[k] == Seen(name, true)
                && forall j :: k < j < |trace| ==> !Touches(trace[j], name)
  }

  // ----- the manager ----------------------------------------------------------------------------------------------

  /** Since `from` the trace only looks. */
  ghost predicate OnlySeen(trace: seq<Event>, from: nat) {
    from <= |trace| && forall k :: from <= k < |trace| ==> trace[k].Seen?
  }

  /** The environment with one entry a connection, each in place of the entries of its name. */
  function Wired(env: seq<string>, connections: seq<Connection>, address: string -> string): seq<string> {
    if connections == [] then env
    else
      var c := connections[|connections| - 1];
      Without(Wired(env, connections[..|connections| - 1], address), c.env + "=") + [Entry(c, address(c.service))]
  }

  /** The entry is that of the connection `i`, and no later connection takes its place. */
  ghost predicate Wins(e: string, connections: seq<Connection>, address: string -> string, i: nat) {
    i < |connections| && e == Entry(connections[i], address(connections[i].service)) && Stays(e, connections[i + 1..])
  }

  ghost predicate FromConnection(e: string, connections: seq<Connection>, address: string -> string) {
    exists i :: Wins(e, connections, address, i)
  }

  /** None of the connections replaces the entry. */
  ghost predicate Stays(e: string, connections: seq<Connection>) {
    forall i :: 0 <= i < |connections| ==> !(connections[i].env + "=" <= e)
  }

  /** The configured environment: the entries that no connection replaces, and for each name the entry of its last
      connection. */
  lemma {:induction false} WiredExact(env: seq<string>, connections: seq<Connection>, address: string -> string,
                                      e: string)
    ensures e in Wired(env, connections, address) <==>
              (e in env && Stays(e, connections)) || FromConnection(e, connections, address)
  {
    hide Entry;
    if connections != [] {
      var init, last := connections[..|connections| - 1], connections[|connections| - 1];
      WiredExact(env, init, address, e);
      StaysOneMore(e, init, last);
      FromOneMore(init, last, address, e);
      assert init + [last] == connections;
    }
  }

  lemma FromOneMore(init: seq<Connection>, last: Connection, address: string -> string, e: string)
    ensures FromConnection(e, init + [last], address) <==>
              (FromConnection(e, init, address) && !(last.env + "=" <= e)) || e == Entry(last, address(last.service))
  {
    hide Entry;
    var all := init + [last];
    forall i: nat | i < |init|
      ensures Wins(e, all, address, i) <==> Wins(e, init, address, i) && !(last.env + "=" <= e)
    {
      StaysOneMore(e, init[i + 1..], last);
      assert all[i] == init[i] && all[i + 1..] == init[i + 1..] + [last];
    }
    assert all[|init|] == last && all[|init| + 1..] == [];
    assert Wins(e, all, address, |init|) <==> e == Entry(last, address(last.service));
  }

  lemma StaysOneMore(e: string, init: seq<Connection>, last: Connection)
    ensures Stays(e, init + [last]) <==> Stays(e, init) && !(last.env + "=" <= e)
  {
    assert (init + [last])[|init|] == last;
    assert forall i :: 0 <= i < |init| ==> (init + [last])[i] == init[i];
  }

  class StackManager {
    const runtime: Runtime
    const services: seq<Service>
    const valid: Service -> bool        // Service::validate
    const canonical: string -> string   // canonical_image
    const address: string -> string     // the address of a service on its network

    constructor (runtime: Runtime, services: seq<Service>, valid: Service -> bool, canonical: string -> string,
                 address: string -> string)
      ensures this.runtime == runtime && this.services == services && this.valid == valid
      ensures this.canonical == canonical && this.address == address
    {
      this.runtime, this.services, this.valid, this.canonical, this.address :=
        runtime, services, valid, canonical, address;
    }

    /** `owned`: the status of the container of `s`, an error if it is somebody else's. */
    method Owned(s: Service) returns (r: Result<Option<Status>>)
      modifies runtime`script, runtime`trace
      ensures |runtime.script| <= |old(runtime.script)| && (r.Ok? ==> |runtime.script| < |old(runtime.script)|)
      ensures old(runtime.trace) <= runtime.trace && OnlySeen(runtime.trace, |old(runtime.trace)|)
      ensures r.Ok? && r.value.None? ==> s.name !in runtime.containers
      ensures r.Ok? && r.value.Some? ==>
                && s.name in runtime.containers && runtime.containers[s.name].owned
                && r.value.value.running == runtime.containers[s.name].running
                && r.value.value.image == runtime.containers[s.name].image
                && runtime.trace == old(runtime.trace) + [Seen(s.name, r.value.value.running && r.value.value.healthy)]
      ensures Smooth(old(runtime.script)) ==>
                && Smooth(runtime.script)
                && (runtime.script != [] && (s.name in runtime.containers ==> runtime.containers[s.name].owned) ==>
                      r.Ok? && (r.value.Some? ==> r.value.value.healthy))
      ensures Fine(old(runtime.script), 1) && (s.name in runtime.containers ==> runtime.containers[s.name].owned) ==>
                && r.Ok? && (r.value.Some? ==> r.value.value.healthy)
                && runtime.script == old(runtime.script)[1..]
    {
      r := runtime.Inspect(s.name);
      if r.Ok? && r.value.Some? && !r.value.value.owned {
        return Err;
      }
    }

    method FindService(name: string) returns (found: Option<Service>)
      ensures found.Some? ==> found.value in services && found.value.name == name
      ensures found.None? ==> forall i :: 0 <= i < |services| ==> services[i].name != name
    {
      var i := 0;
      while i < |services|
        invariant i <= |services| && forall k :: 0 <= k < i ==> services[k].name != name
      {
        if services[i].name == name {
          return Some(services[i]);
        }
        i := i + 1;
      }
      return None;
    }

    /** A service of the stack has this name, and its container is ours and running. */
    ghost predicate Fit(containers: map<string, Container>, name: string) {
      (exists i :: 0 <= i < |services| && services[i].name == name) && Running(containers, name)
    }

    ghost predicate AllFit(containers: map<string, Container>, connections: seq<Connection>) {
      forall i :: 0 <= i < |connections| ==> Fit(containers, connections[i].service)
    }

    /** One connection: its service is found, seen running and healthy, and has an address. */
    method Dependency(c: Connection) returns (ok: bool)
      modifies runtime`script, runtime`trace
      ensures |runtime.script| <= |old(runtime.script)|
      ensures old(runtime.trace) <= runtime.trace && OnlySeen(runtime.trace, |old(runtime.trace)|)
      ensures ok ==> SeenFit(runtime.trace, |old(runtime.trace)|, |runtime.trace|, c.service)
      ensures Smooth(old(runtime.script)) ==>
                Smooth(runtime.script) && (runtime.script != [] && Fit(runtime.containers, c.service) ==> ok)
      ensures Fine(old(runtime.script), 2) && Fit(runtime.containers, c.service) ==>
                ok && runtime.script == old(runtime.script)[2..]
    {
      var dependency := FindService(c.service);
      if dependency.None? {
        return false;
      }
      var status := Owned(dependency.value);
      if status.Err? || status.value.None? || !status.value.value.running || !status.value.value.healthy {
        return false;
      }
      assert runtime.trace[|old(runtime.trace)|] == Seen(c.service, true);
      ok := runtime.Other();
    }

    /** `configured`: the service with its connections in its environment, once every one was seen running and
        healthy. */
    method Configured(s: Service) returns (r: Result<Service>)
      modifies runtime`script, runtime`trace
      ensures |runtime.script| <= |old(runtime.script)|
      ensures old(runtime.trace) <= runtime.trace && OnlySeen(runtime.trace, |old(runtime.trace)|)
      ensures r.Ok? ==>
                && r.value == s.(env := Wired(s.env, s.connections, address))
                && DependenciesSeen(runtime.trace, |old(runtime.trace)|, |runtime.trace|, s.connections)
      ensures Smooth(old(runtime.script)) ==>
                Smooth(runtime.script) && (runtime.script != [] && AllFit(runtime.containers, s.connections) ==> r.Ok?)
      ensures Fine(old(runtime.script), 2 * |s.connections|) && AllFit(runtime.containers, s.connections) ==>
                r.Ok? && runtime.script == old(runtime.script)[2 * |s.connections|..]
    {
      hide SeenFit, Without, Entry, Fit, Smooth, Fine;
      var env := s.env;
      var i := 0;
      FineStart(runtime.script, 2 * |s.connections|);
      while i < |s.connections|
        invariant i <= |s.connections| && |runtime.script| <= |old(runtime.script)|
        invariant old(runtime.trace) <= runtime.trace && OnlySeen(runtime.trace, |old(runtime.trace)|)
        invariant env == Wired(s.env, s.connections[..i], address)
        invariant DependenciesSeen(runtime.trace, |old(runtime.trace)|, |runtime.trace|, s.connections[..i])
        invariant Smooth(old(runtime.script)) ==> Smooth(runtime.script)
        invariant Fine(old(runtime.script), 2 * |s.connections|) && AllFit(runtime.containers, s.connections) ==>
                    Ahead(old(runtime.script), 2 * i, runtime.script, 2 * |s.connections|)
      {
        var c := s.connections[i];
        ghost var trace := runtime.trace;
        FineAhead(old(runtime.script), 2 * i, runtime.script, 2 * |s.connections|, 2);
        var ok := Dependency(c);
        if !ok {
          return Err;
        }
        SeenLater(trace, runtime.trace, |old(runtime.trace)|, s.connections[..i]);
        SeenEarlier(runtime.trace, |old(runtime.trace)|, |trace|, c.service);
        assert s.connections[..i + 1][..i] == s.connections[..i];
        env := Without(env, c.env + "=") + [Entry(c, address(c.service))];
        i := i + 1;
      }
      assert s.connections[..i] == s.connections;
      return Ok(s.(env := env));
    }

    lemma SeenEarlier(trace: seq<Event>, from: nat, later: nat, name: string)
      requires from <= later && SeenFit(trace, later, |trace|, name)
      ensures SeenFit(trace, from, |trace|, name)
    {
    }

    lemma SeenLater(trace: seq<Event>, longer: seq<Event>, from: nat, connections: seq<Connection>)
      requires trace <= longer && DependenciesSeen(trace, from, |trace|, connections)
      ensures DependenciesSeen(longer, from, |longer|, connections)
    {
      forall k | 0 <= k < |connections| ensures SeenFit(longer, from, |longer|, connections[k].service) {
        var j :| from <= j < |trace| && trace[j] == Seen(connections[k].service, true);
        assert longer[j] == trace[j];
      }
    }

    ghost predicate Running(containers: map<string, Container>, name: string) {
      name in containers && containers[name].owned && containers[name].running
    }

    /** `gate`: polls until the container is running and healthy. */
    method Gate(s: Service) returns (ok: bool)
      modifies runtime`script, runtime`trace
      ensures |runtime.script| <= |old(runtime.script)|
      ensures old(runtime.trace) <= runtime.trace && OnlySeen(runtime.trace, |old(runtime.trace)|)
      ensures ok ==>
                && s.name in runtime.containers && runtime.containers[s.name].owned
                && runtime.containers[s.name].running
                && runtime.trace != old(runtime.trace) && runtime.trace[|runtime.trace| - 1] == Seen(s.name, true)
      ensures Smooth(old(runtime.script)) ==>
                Smooth(runtime.script) && (runtime.script != [] && Running(runtime.containers, s.name) ==> ok)
      ensures Fine(old(runtime.script), 1) && Running(runtime.containers, s.name) ==>
                ok && runtime.script == old(runtime.script)[1..]
    {
      while true
        invariant Fine(old(runtime.script), 1) && Running(runtime.containers, s.name) ==>
                    runtime.script == old(runtime.script)
        invariant |runtime.script| <= |old(runtime.script)|
        invariant Smooth(old(runtime.script)) ==> Smooth(runtime.script)
        invariant Smooth(old(runtime.script)) && Running(runtime.containers, s.name) ==>
                    runtime.script == old(runtime.script) || runtime.script == []
        invariant old(runtime.trace) <= runtime.trace && OnlySeen(runtime.trace, |old(runtime.trace)|)
        decreases |runtime.script|
      {
        var status := Owned(s);
        if status.Err? {
          return false;
        }
        if status.value.Some? && status.value.value.running && status.value.value.healthy {
          return true;
        }
        var time := runtime.Other();
        if !time {
          return false;
        }
      }
    }

    // --- up ---

    /** What bringing up `s` did to the containers, by its verdict. */
    ghost predicate Brought(before: map<string, Container>, after: map<string, Container>, s: Service,
                            made: bool, ran: bool, leak: bool)
    {
      if made || leak then
        && s.name !in before && s.name in after && after - {s.name} == before
        && after[s.name] == New(s.(env := Wired(s.env, s.connections, address))).(running := ran)
        && (leak ==> !made && !ran)
      else if ran then
        && s.name in before && before[s.name].owned && !before[s.name].running
        && after == before[s.name := before[s.name].(running := true)]
      else after == before
    }

    /** The service is up as configured. */
    ghost predicate IsUp(containers: map<string, Container>, s: Service) {
      && s.name in containers && containers[s.name].owned && containers[s.name].running
      && canonical(containers[s.name].image) == canonical(s.image)
    }

    /** Since `from` the trace touches nothing but `name`, and makes it after its dependencies. */
    ghost predicate TurnOf(trace: seq<Event>, from: nat, name: string) {
      && from <= |trace|
      && (forall k, other :: from <= k < |trace| && Touches(trace[k], other) ==> other == name)
      && MadeInOrder(trace, from)
    }

    lemma TurnGoesOn(trace: seq<Event>, longer: seq<Event>, from: nat, name: string)
      requires TurnOf(trace, from, name) && trace <= longer
      requires forall k :: |trace| <= k < |longer| ==> longer[k].Seen? || longer[k] == Ran(name)
      ensures TurnOf(longer, from, name)
    {
      forall k | from <= k < |longer| && longer[k].Made?
        ensures DependenciesSeen(longer, from, k, longer[k].service.connections)
      {
        assert longer[k] == trace[k];
        DependenciesStay(trace, longer, from, k, longer[k].service.connections);
      }
    }

    lemma DependenciesStay(trace: seq<Event>, longer: seq<Event>, from: nat, to: nat, connections: seq<Connection>)
      requires trace <= longer && DependenciesSeen(trace, from, to, connections)
      ensures DependenciesSeen(longer, from, to, connections)
    {
      forall i | 0 <= i < |connections| ensures SeenFit(longer, from, to, connections[i].service) {
        assert SeenFit(trace, from, to, connections[i].service);
        var k :| from <= k < to <= |trace| && trace[k] == Seen(connections[i].service, true);
        assert longer[k] == trace[k];
      }
    }

    lemma TurnMakes(trace: seq<Event>, from: nat, service: Service)
      requires OnlySeen(trace, from) && DependenciesSeen(trace, from, |trace|, service.connections)
      ensures TurnOf(trace + [Made(service)], from, service.name)
    {
      DependenciesStay(trace, trace + [Made(service)], from, |trace|, service.connections);
    }

    /** The networks and volumes of `s`. */
    method Provision(s: Service) returns (ok: bool)
      modifies runtime`script
      ensures |runtime.script| <= |old(runtime.script)|
      ensures Smooth(old(runtime.script)) ==> Smooth(runtime.script) && (runtime.script != [] ==> ok)
      ensures Fine(old(runtime.script), 1 + |s.volumes|) ==>
                ok && runtime.script == old(runtime.script)[1 + |s.volumes|..]
    {
      hide Smooth;
      ok := runtime.Other();
      var i := 0;
      while ok && i < |s.volumes|
        invariant i <= |s.volumes|
        invariant Fine(old(runtime.script), 1 + |s.volumes|) ==> ok && runtime.script == old(runtime.script)[1 + i..]
        invariant |runtime.script| <= |old(runtime.script)|
        invariant Smooth(old(runtime.script)) ==> Smooth(runtime.script) && (runtime.script != [] ==> ok)
        decreases |s.volumes| - i
      {
        ok := runtime.Other();
        i := i + 1;
      }
    }

    /** Creates the container of `s`, its connections configured. */
    method Make(s: Service) returns (made: bool, ghost leak: bool)
      requires s.name !in runtime.containers
      modifies runtime
      ensures |runtime.script| <= |old(runtime.script)|
      ensures Brought(old(runtime.containers), runtime.containers, s, made, false, leak)
      ensures old(runtime.trace) <= runtime.trace && TurnOf(runtime.trace, |old(runtime.trace)|, s.name)
      ensures leak ==> s.egress
      ensures Smooth(old(runtime.script)) ==>
                && Smooth(runtime.script)
                && (runtime.script != [] && AllFit(old(runtime.containers), s.connections) ==> made)
      ensures Fine(old(runtime.script), 2 * |s.connections| + 1) && AllFit(old(runtime.containers), s.connections) ==>
                made && runtime.script == old(runtime.script)[2 * |s.connections| + 1..]
      ensures Leaks(old(runtime.script), 2 * |s.connections|, s) && AllFit(old(runtime.containers), s.connections) ==>
                leak && runtime.script == old(runtime.script)[2 * |s.connections| + 1..]
    {
      hide Wired, DependenciesSeen, AllFit, Smooth, Fine;
      made, leak := false, false;
      FineSplit(runtime.script, 2 * |s.connections|, 1);
      LeaksAfter(runtime.script, 0, 2 * |s.connections|, s);
      var configured := Configured(s);
      TurnLooks(runtime.trace, |old(runtime.trace)|, s.name);
      if configured.Ok? {
        TurnMakes(runtime.trace, |old(runtime.trace)|, configured.value);
        LeaksWired(runtime.script, s, configured.value);
        made := runtime.Create(configured.value);
        leak := !made && s.name in runtime.containers;
      }
    }

    lemma LeaksWired(script: seq<Step>, s: Service, wired: Service)
      requires SameButEnv(s, wired)
      ensures Leaks(script, 0, s) == Leaks(script, 0, wired)
    {
    }

    lemma TurnLooks(trace: seq<Event>, from: nat, name: string)
      requires OnlySeen(trace, from)
      ensures TurnOf(trace, from, name)
    {
    }

    /** Starts the container of `s` and waits at its gate. */
    method StartUp(s: Service) returns (ran: bool, ok: bool)
      requires s.name in runtime.containers
      modifies runtime`script, runtime`containers, runtime`trace
      ensures |runtime.script| <= |old(runtime.script)|
      ensures ran ==>
                runtime.containers
                == old(runtime.containers)[s.name := old(runtime.containers)[s.name].(running := true)]
      ensures !ran ==> !ok && runtime.containers == old(runtime.containers)
      ensures old(runtime.trace) <= runtime.trace
      ensures forall k :: |old(runtime.trace)| <= k < |runtime.trace| ==>
                runtime.trace[k].Seen? || runtime.trace[k] == Ran(s.name)
      ensures ok ==> runtime.containers[s.name].owned && GatePassed(runtime.trace, |old(runtime.trace)|, s.name)
      ensures Smooth(old(runtime.script)) ==>
                && Smooth(runtime.script)
                && (runtime.script != [] && old(runtime.containers)[s.name].owned ==> ok)
      ensures Fine(old(runtime.script), 2) && old(runtime.containers)[s.name].owned ==>
                ok && runtime.script == old(runtime.script)[2..]
    {
      hide Smooth, Fine;
      FineSplit(runtime.script, 1, 1);
      ok := false;
      ran := runtime.Start(s.name);
      if ran {
        ok := Gate(s);
      }
    }

    /** The last event is the observation of the gate. */
    ghost predicate GatePassed(trace: seq<Event>, from: nat, name: string) {
      from < |trace| && trace[|trace| - 1] == Seen(name, true)
    }

    /** No container is in the place of `s`, and its dependencies are there. */
    ghost predicate Absent(containers: map<string, Container>, s: Service) {
      s.name !in containers && AllFit(containers, s.connections)
    }

    /** A container in the place of `s` is ours and has its image; without one, its dependencies are there. */
    ghost predicate Welcomes(containers: map<string, Container>, s: Service) {
      if s.name in containers then
        containers[s.name].owned && canonical(containers[s.name].image) == canonical(s.image)
      else AllFit(containers, s.connections)
    }

    /** The requests of the turn of a service up to the creation of its container, and of the whole turn. */
    function ToCreate(s: Service): nat {
      1 + |s.volumes| + 1 + 2 * |s.connections|
    }

    function Turn(s: Service): nat {
      ToCreate(s) + 3
    }

    /** The turn of `up` for one service. */
    method Bring(s: Service) returns (ok: bool, made: bool, ran: bool, ghost leak: bool)
      modifies runtime
      ensures |runtime.script| <= |old(runtime.script)|
      ensures Brought(old(runtime.containers), runtime.containers, s, made, ran, leak) && (leak ==> s.egress)
      ensures ok ==> !leak && IsUp(runtime.containers, s) && GatePassed(runtime.trace, |old(runtime.trace)|, s.name)
      ensures old(runtime.trace) <= runtime.trace && TurnOf(runtime.trace, |old(runtime.trace)|, s.name)
      ensures s.name in old(runtime.containers) && old(runtime.containers)[s.name].running ==>
                OnlySeen(runtime.trace, |old(runtime.trace)|)
      ensures Smooth(old(runtime.script)) ==>
                Smooth(runtime.script) && (runtime.script != [] && Welcomes(old(runtime.containers), s) ==> ok)
      ensures Fine(old(runtime.script), Turn(s)) && Absent(old(runtime.containers), s) ==>
                ok && runtime.script == old(runtime.script)[Turn(s)..]
      ensures Leaks(old(runtime.script), ToCreate(s), s) && Absent(old(runtime.containers), s) ==>
                leak && runtime.script == old(runtime.script)[ToCreate(s) + 1..]
    {
      hide Wired, DependenciesSeen, TurnOf, AllFit, Smooth, Fine, Leaks;
      FreshTurn(runtime.script, s);
      LeakingTurn(runtime.script, s);
      ok, made, ran, leak := false, false, false, false;
      ghost var from := |runtime.trace|;
      TurnLooks(runtime.trace, from, s.name);
      var provided := Provision(s);
      if !provided {
        return;
      }
      var status := Owned(s);
      TurnLooks(runtime.trace, from, s.name);
      if status.Err? {
        return;
      }
      if status.value.Some? {
        if canonical(status.value.value.image) != canonical(s.image) {
          return;
        }
        if status.value.value.running {
          ok := Gate(s);
          TurnLooks(runtime.trace, from, s.name);
          return;
        }
      } else {
        ghost var trace := runtime.trace;
        made, leak := Make(s);
        TurnFromLater(trace, runtime.trace, from, s.name);
        if !made {
          return;
        }
      }
      ghost var trace := runtime.trace;
      ran, ok := StartUp(s);
      TurnGoesOn(trace, runtime.trace, from, s.name);
    }

    lemma FreshTurn(script: seq<Step>, s: Service)
      ensures Fine(script, Turn(s)) ==>
                var p, c := 1 + |s.volumes|, 2 * |s.connections| + 1;
                && Fine(script, p) && Fine(script[p..], 1) && Fine(script[p..][1..], c)
                && Fine(script[p..][1..][c..], 2) && script[p..][1..][c..][2..] == script[Turn(s)..]
    {
    }

    lemma LeakingTurn(script: seq<Step>, s: Service)
      ensures Leaks(script, ToCreate(s), s) ==>
                var p, c := 1 + |s.volumes|, 2 * |s.connections|;
                && Fine(script, p) && Fine(script[p..], 1) && Leaks(script[p..][1..], c, s)
                && script[p..][1..][c + 1..] == script[ToCreate(s) + 1..]
    {
    }

    lemma TurnFromLater(trace: seq<Event>, longer: seq<Event>, from: nat, name: string)
      requires OnlySeen(trace, from) && trace <= longer && TurnOf(longer, |trace|, name)
      ensures TurnOf(longer, from, name)
    {
      assert forall k :: from <= k < |trace| ==> longer[k] == trace[k] && longer[k].Seen?;
      forall k | |trace| <= k < |longer| && longer[k].Made?
        ensures DependenciesSeen(longer, from, k, longer[k].service.connections)
      {
        EarlierStart(longer, from, |trace|, k, longer[k].service.connections);
      }
    }

    lemma EarlierStart(trace: seq<Event>, from: nat, later: nat, to: nat, connections: seq<Connection>)
      requires from <= later && DependenciesSeen(trace, later, to, connections)
      ensures DependenciesSeen(trace, from, to, connections)
    {
    }

    /** The containers while `up` is at work: those of before, the started ones running, and the created ones. */
    ghost predicate Doing(before: map<string, Container>, now: map<string, Container>, created: seq<string>,
                          started: seq<string>)
    {
      && (forall n :: n in created ==> n !in before && n in now && now[n].owned)
      && (forall n :: n in started ==> n in now && now[n].owned)
      && (forall n :: n in now ==> n in before || n in created)
      && (forall n :: n in before ==>
            && n in now
            && (if n in started then !before[n].running && now[n] == before[n].(running := true)
                else now[n] == before[n]))
    }

    lemma DoingCreate(before: map<string, Container>, now: map<string, Container>, c: Container, created: seq<string>,
                      started: seq<string>, name: string)
      requires Doing(before, now, created, started) && name !in now && c.owned
      ensures Doing(before, now[name := c], created + [name], started)
    {
    }

    lemma DoingStart(before: map<string, Container>, now: map<string, Container>, created: seq<string>,
                     started: seq<string>, name: string)
      requires Doing(before, now, created, started) && name in now && now[name].owned && !now[name].running
      ensures Doing(before, now[name := now[name].(running := true)], created, started + [name])
    {
      assert forall n :: n in started + [name] <==> n in started || n == name;
    }

    lemma DoingGoesOn(before: map<string, Container>, now: map<string, Container>, after: map<string, Container>,
                      created: seq<string>, started: seq<string>, s: Service, made: bool, ran: bool)
      requires Doing(before, now, created, started) && Brought(now, after, s, made, ran, false)
      ensures Doing(before, after, if made then created + [s.name] else created,
                    if ran then started + [s.name] else started)
    {
      hide Doing, Wired;
      if made {
        var c := New(s.(env := Wired(s.env, s.connections, address)));
        var with := now[s.name := c];
        WithOne(now, after, s.name);
        DoingCreate(before, now, c, created, started, s.name);
        if ran {
          DoingStart(before, with, created + [s.name], started, s.name);
          assert after == with[s.name := with[s.name].(running := true)];
        } else {
          assert after == with;
        }
      } else if ran {
        DoingStart(before, now, created, started, s.name);
      }
    }

    lemma WithOne(now: map<string, Container>, after: map<string, Container>, name: string)
      requires name in after && after - {name} == now
      ensures after == now[name := after[name]]
    {
      assert forall n :: n in after && n != name <==> n in after - {name};
      assert forall n :: n in after && n != name ==> after[n] == (after - {name})[n];
    }

    ghost predicate Removable(names: seq<string>, containers: map<string, Container>) {
      Distinct(names) && forall n :: n in names ==> n in containers
    }

    /** The first half of the clean-up: stops what was started, in reverse, and goes on after a failure. */
    method StopAll(started: seq<string>) returns (clean: bool)
      requires forall n :: n in started ==> n in runtime.containers
      modifies runtime`script, runtime`containers, runtime`trace
      ensures |runtime.script| <= |old(runtime.script)| <= |runtime.script| + |started|
      ensures runtime.containers.Keys == old(runtime.containers.Keys)
      ensures forall n :: n in runtime.containers && n !in started ==>
                runtime.containers[n] == old(runtime.containers)[n]
      ensures clean ==> forall n :: n in started ==>
                runtime.containers[n] == old(runtime.containers)[n].(running := false)
      ensures Smooth(old(runtime.script)) ==> Smooth(runtime.script) && (runtime.script != [] ==> clean)
    {
      hide Smooth;
      clean := true;
      ghost var before := runtime.containers;
      var k: nat := |started|;
      while k > 0
        invariant |runtime.script| <= |old(runtime.script)| <= |runtime.script| + |started| - k
        invariant k <= |started| && runtime.containers.Keys == before.Keys
        invariant forall n :: n in before && n !in started ==> runtime.containers[n] == before[n]
        invariant forall n :: n in before ==>
                    runtime.containers[n] == before[n] || runtime.containers[n] == before[n].(running := false)
        invariant clean ==> forall n :: n in started[k..] ==> runtime.containers[n] == before[n].(running := false)
        invariant Smooth(old(runtime.script)) ==> Smooth(runtime.script) && (runtime.script != [] ==> clean)
      {
        k := k - 1;
        var stopped := runtime.Stop(started[k]);
        clean := clean && stopped;
        assert started[k..] == [started[k]] + started[k + 1..];
      }
      assert started[k..] == started;
    }

    /** The second half: removes what was created, in reverse, and goes on after a failure. */
    method RemoveAll(created: seq<string>) returns (clean: bool)
      modifies runtime`script, runtime`containers, runtime`trace
      ensures |runtime.script| <= |old(runtime.script)| <= |runtime.script| + |created|
      ensures runtime.containers.Keys <= old(runtime.containers.Keys)
      ensures forall n :: n in runtime.containers ==> runtime.containers[n] == old(runtime.containers)[n]
      ensures forall n :: n in old(runtime.containers) && n !in created ==> n in runtime.containers
      ensures clean ==> forall n :: n in created ==> n !in runtime.containers
      ensures Smooth(old(runtime.script)) ==>
                && Smooth(runtime.script)
                && (runtime.script != [] && Removable(created, old(runtime.containers)) ==> clean)
    {
      hide Smooth;
      clean := true;
      ghost var before := runtime.containers;
      var j: nat := |created|;
      while j > 0
        invariant |runtime.script| <= |old(runtime.script)| <= |runtime.script| + |created| - j
        invariant j <= |created| && runtime.containers.Keys <= before.Keys
        invariant forall n :: n in runtime.containers ==> runtime.containers[n] == before[n]
        invariant forall n :: n in before && n !in created ==> n in runtime.containers
        invariant clean ==> forall n :: n in created[j..] ==> n !in runtime.containers
        invariant forall n :: n in before && n !in created[j..] ==> n in runtime.containers
        invariant Smooth(old(runtime.script)) ==> Smooth(runtime.script)
        invariant Smooth(old(runtime.script)) && runtime.script != [] && Removable(created, before) ==> clean
      {
        j := j - 1;
        assert Distinct(created) ==> created[j] !in created[j + 1..];
        var removed := runtime.Remove(created[j]);
        clean := clean && removed;
        assert created[j..] == [created[j]] + created[j + 1..];
      }
      assert created[j..] == created;
    }

    /** The clean-up of `up`. Without a failure everything is as before, but for a container that a failed `create`
        left behind; and there is no failure unless the runtime makes one. */
    method Undo(created: seq<string>, started: seq<string>, ghost before: map<string, Container>,
                ghost leaks: set<string>)
      returns (clean: bool)
      requires Doing(before, runtime.containers - leaks, created, started)
      requires forall n :: n in leaks ==> n !in created && n !in started && n !in before && n in runtime.containers
      modifies runtime`script, runtime`containers, runtime`trace
      ensures |runtime.script| <= |old(runtime.script)| <= |runtime.script| + |started| + |created|
      ensures clean ==> runtime.containers - leaks == before && leaks <= runtime.containers.Keys
      ensures forall n :: n in before && !before[n].owned ==>
                n in runtime.containers && runtime.containers[n] == before[n]
      ensures Smooth(old(runtime.script)) && runtime.script != [] && Distinct(created) ==> clean
    {
      hide Smooth;
      ghost var mid := runtime.containers;
      assert forall n :: n in started ==> n in mid - leaks;
      var stopped := StopAll(started);
      ghost var halted := runtime.containers;
      var removed := RemoveAll(created);
      clean := stopped && removed;
      if clean {
        Undone(before, mid - leaks, halted - leaks, runtime.containers - leaks, created, started);
      }
      UnownedKept(before, mid - leaks, created, started);
    }

    lemma UnownedKept(before: map<string, Container>, now: map<string, Container>, created: seq<string>,
                      started: seq<string>)
      requires Doing(before, now, created, started)
      ensures forall n :: n in before && !before[n].owned ==>
                n !in created && n !in started && n in now && now[n] == before[n]
    {
    }

    lemma Undone(before: map<string, Container>, mid: map<string, Container>, halted: map<string, Container>,
                 now: map<string, Container>, created: seq<string>, started: seq<string>)
      requires Doing(before, mid, created, started) && halted.Keys == mid.Keys
      requires forall n :: n in mid ==> halted[n] == if n in started then mid[n].(running := false) else mid[n]
      requires forall n :: n in now <==> n in halted && n !in created
      requires forall n :: n in now ==> now[n] == halted[n]
      ensures now == before
    {
      forall n | n in before ensures n in now && now[n] == before[n] {
        assert n in mid;
      }
    }

    /** The services before `upTo` are up, each seen so after it was last touched. */
    ghost predicate AllUp(containers: map<string, Container>, trace: seq<Event>, from: nat, upTo: nat)
      requires upTo <= |services|
    {
      forall i :: 0 <= i < upTo ==> IsUp(containers, services[i]) && Passed(trace, from, services[i].name)
    }

    lemma StaysUp(before: map<string, Container>, after: map<string, Container>, s: Service, made: bool, ran: bool,
                  leak: bool, other: Service)
      requires Brought(before, after, s, made, ran, leak) && IsUp(before, other)
      ensures IsUp(after, other)
    {
      if made || leak {
        WithOne(before, after, s.name);
      }
    }

    lemma StaysPassed(trace: seq<Event>, longer: seq<Event>, from: nat, name: string)
      requires trace <= longer && Passed(trace, from, name)
      requires forall k :: |trace| <= k < |longer| ==> !Touches(longer[k], name)
      ensures Passed(longer, from, name)
    {
      var k :| from <= k < |trace| && trace[k] == Seen(name, true)
               && forall j :: k < j < |trace| ==> !Touches(trace[j], name);
      assert longer[k] == trace[k];
      forall j | k < j < |longer| ensures !Touches(longer[j], name) {
        assert j < |trace| ==> longer[j] == trace[j];
      }
    }

    lemma OrderGoesOn(trace: seq<Event>, longer: seq<Event>, from: nat)
      requires from <= |trace| && trace <= longer && MadeInOrder(trace, from) && MadeInOrder(longer, |trace|)
      ensures MadeInOrder(longer, from)
    {
      forall k | from <= k < |longer| && longer[k].Made?
        ensures DependenciesSeen(longer, from, k, longer[k].service.connections)
      {
        if k < |trace| {
          assert longer[k] == trace[k];
          DependenciesStay(trace, longer, from, k, longer[k].service.connections);
        } else {
          EarlierStart(longer, from, |trace|, k, longer[k].service.connections);
        }
      }
    }

    /** One more service is up; the earlier ones still are. */
    lemma OneMoreUp(before: map<string, Container>, after: map<string, Container>, trace: seq<Event>,
                    longer: seq<Event>, from: nat, i: nat, made: bool, ran: bool)
      requires i < |services| && from <= |trace| <= |longer| && trace <= longer && AllUp(before, trace, from, i)
      requires Brought(before, after, services[i], made, ran, false) && IsUp(after, services[i])
      requires GatePassed(longer, |trace|, services[i].name) && TurnOf(longer, |trace|, services[i].name)
      requires services[i].name in before && before[services[i].name].running ==> OnlySeen(longer, |trace|)
      ensures AllUp(after, longer, from, i + 1)
    {
      hide Brought, IsUp, MadeInOrder;
      forall j | 0 <= j < i ensures IsUp(after, services[j]) && Passed(longer, from, services[j].name) {
        StaysUp(before, after, services[i], made, ran, false, services[j]);
        UpRuns(before, services[j]);
        StaysPassed(trace, longer, from, services[j].name);
      }
      assert longer[|longer| - 1] == Seen(services[i].name, true);
    }

    lemma UpRuns(containers: map<string, Container>, s: Service)
      requires IsUp(containers, s)
      ensures s.name in containers && containers[s.name].running
    {
    }

    /** Nothing stands in the way of `up`: containers in the places of the stack are ours and have the right image,
        services of one name have one image, and every connection goes to an earlier service. */
    ghost predicate Ready(containers: map<string, Container>) {
      && (forall i :: 0 <= i < |services| && services[i].name in containers ==>
            && containers[services[i].name].owned
            && canonical(containers[services[i].name].image) == canonical(services[i].image))
      && (forall i, j :: 0 <= i < j < |services| && services[i].name == services[j].name ==>
            canonical(services[i].image) == canonical(services[j].image))
      && forall i, k :: 0 <= i < |services| && 0 <= k < |services[i].connections| ==>
           Earlier(i, services[i].connections[k].service)
    }

    ghost predicate Earlier(i: nat, name: string)
      requires i <= |services|
    {
      exists j :: 0 <= j < i && services[j].name == name
    }

    /** The places of the services that have not had their turn are as before, or those of a service that has. */
    ghost predicate Untouched(before: map<string, Container>, now: map<string, Container>, upTo: nat)
      requires upTo <= |services|
    {
      forall n :: || ((n in now <==> n in before) && (n in before ==> now[n] == before[n]))
                  || exists i :: 0 <= i < upTo && services[i].name == n
    }

    lemma OneMoreTouched(before: map<string, Container>, now: map<string, Container>, after: map<string, Container>,
                         i: nat, made: bool, ran: bool)
      requires i < |services| && Brought(now, after, services[i], made, ran, false)
      ensures Untouched(before, now, i) ==> Untouched(before, after, i + 1)
    {
      hide Wired;
      if made { WithOne(now, after, services[i].name); }
    }

    lemma ReadyWelcomes(before: map<string, Container>, now: map<string, Container>, trace: seq<Event>, from: nat,
                        i: nat)
      requires i < |services| && Ready(before) && Untouched(before, now, i) && AllUp(now, trace, from, i)
      ensures Welcomes(now, services[i])
    {
      var s := services[i];
      if s.name !in now {
        forall k | 0 <= k < |s.connections| ensures Fit(now, s.connections[k].service) {
          assert Earlier(i, services[i].connections[k].service);
          var j :| 0 <= j < i && services[j].name == s.connections[k].service;
          assert IsUp(now, services[j]);
        }
      } else if exists j :: 0 <= j < i && services[j].name == s.name {
        var j :| 0 <= j < i && services[j].name == s.name;
        assert IsUp(now, services[j]);
      }
    }

    /** The requests of the turns before service `i`, none of which has a container yet. */
    function Before(i: nat): nat
      requires i <= |services|
    {
      if i == 0 then 0 else Before(i - 1) + Turn(services[i - 1])
    }

    /** The turns go well until the creation of the container of service `k`, which fails with the container made. */
    ghost predicate Breaks(script: seq<Step>, k: nat) {
      k < |services| && Leaks(script, Before(k) + ToCreate(services[k]), services[k])
    }

    /** The first services up to `k` have names of their own that no container has, and nothing stands in their way. */
    ghost predicate Fresh(containers: map<string, Container>, k: nat) {
      && k < |services| && Ready(containers)
      && (forall i :: 0 <= i <= k ==> services[i].name !in containers)
      && (forall i, j :: 0 <= i < j <= k ==> services[i].name != services[j].name)
    }

    /** If the script is to break at service `k`, the turns before `i` have gone well. */
    ghost predicate OnTrack(script: seq<Step>, rest: seq<Step>, before: map<string, Container>, i: nat)
      requires i <= |services|
    {
      forall k :: Breaks(script, k) && Fresh(before, k) ==> i <= k && Ahead(script, Before(i), rest, |script|)
    }

    lemma TrackAhead(script: seq<Step>, rest: seq<Step>, before: map<string, Container>, now: map<string, Container>,
                     trace: seq<Event>, from: nat, i: nat, k: nat)
      requires i < |services| && OnTrack(script, rest, before, i) && Breaks(script, k) && Fresh(before, k)
      requires Untouched(before, now, i) && AllUp(now, trace, from, i)
      ensures i <= k && Absent(now, services[i])
      ensures i < k ==>
                Fine(rest, Turn(services[i])) && Ahead(script, Before(i + 1), rest[Turn(services[i])..], |script|)
      ensures i == k ==>
                && Leaks(rest, ToCreate(services[i]), services[i])
                && rest[ToCreate(services[i]) + 1..] == script[Before(i) + ToCreate(services[i]) + 1..]
    {
      hide AllFit, Ready, AllUp;
      assert Ahead(script, Before(i), rest, |script|);
      ReadyWelcomes(before, now, trace, from, i);
      BeforeGrows(i, k);
      var n := Before(k) + ToCreate(services[k]);
      LeaksAfter(script, Before(i), n, services[k]);
    }

    /** What follows the request at which the script breaks. */
    ghost predicate Breaking(script: seq<Step>, k: nat, rest: seq<Step>)
      requires k < |services|
    {
      Before(k) + ToCreate(services[k]) + 1 <= |script| && rest == script[Before(k) + ToCreate(services[k]) + 1..]
    }

    lemma OnTrackFirst(script: seq<Step>, before: map<string, Container>)
      ensures OnTrack(script, script, before, 0) && Untouched(before, before, 0)
    {
      hide Fine, Ready;
    }

    lemma TrackNext(script: seq<Step>, rest: seq<Step>, after: seq<Step>, before: map<string, Container>,
                    now: map<string, Container>, trace: seq<Event>, from: nat, i: nat, ok: bool, leak: bool)
      requires i < |services| && OnTrack(script, rest, before, i) && AllUp(now, trace, from, i)
      requires Ready(before) ==> Untouched(before, now, i)
      requires ok ==> !leak
      requires Fine(rest, Turn(services[i])) && Absent(now, services[i]) ==> ok && after == rest[Turn(services[i])..]
      requires Leaks(rest, ToCreate(services[i]), services[i]) && Absent(now, services[i]) ==>
                 leak && after == rest[ToCreate(services[i]) + 1..]
      ensures ok ==> OnTrack(script, after, before, i + 1)
      ensures forall k: nat | Breaks(script, k) && Fresh(before, k) ::
                !ok ==> leak && i == k && Breaking(script, k, after)
    {
      hide AllFit, Ready, AllUp, Fine, Absent, Untouched;
      forall k | Breaks(script, k) && Fresh(before, k)
        ensures ok ==> i + 1 <= k && Ahead(script, Before(i + 1), after, |script|)
        ensures !ok ==> leak && i == k && Breaking(script, k, after)
      {
        TrackAhead(script, rest, before, now, trace, from, i, k);
      }
    }

    lemma {:induction false} BeforeGrows(i: nat, k: nat)
      requires i <= k < |services|
      ensures Before(i) <= Before(k)
      ensures i < k ==> Before(i) + Turn(services[i]) <= Before(k)
    {
      if i < k { BeforeGrows(i, k - 1); }
    }

    /** The loop of `up`: what was created, what was started, and the container a failed `create` left. */
    method BringAll() returns (ok: bool, created: seq<string>, started: seq<string>, ghost leaks: set<string>)
      modifies runtime
      ensures Doing(old(runtime.containers), runtime.containers - leaks, created, started) && Distinct(created)
      ensures forall n :: n in leaks ==>
                && n !in created && n !in started && n !in old(runtime.containers) && n in runtime.containers
                && exists i :: 0 <= i < |services| && services[i].name == n && services[i].egress
      ensures ok ==> leaks == {} && AllUp(runtime.containers, runtime.trace, |old(runtime.trace)|, |services|)
      ensures old(runtime.trace) <= runtime.trace && MadeInOrder(runtime.trace, |old(runtime.trace)|)
      ensures Smooth(old(runtime.script)) ==>
                Smooth(runtime.script) && (runtime.script != [] && Ready(old(runtime.containers)) ==> ok)
      ensures forall k: nat | Breaks(old(runtime.script), k) && Fresh(old(runtime.containers), k) ::
                && !ok && leaks == {services[k].name} && |created| <= k && |started| <= k
                && Breaking(old(runtime.script), k, runtime.script)
    {
      hide Brought, IsUp, MadeInOrder, Doing, TurnOf, GatePassed, AllUp, Ready, Welcomes, Smooth, Fine, Leaks, Absent;
      hide OnTrack, Breaks, Fresh, Breaking, Untouched;
      ghost var before, from := runtime.containers, |runtime.trace|;
      ok, created, started, leaks := true, [], [], {};
      assert before - {} == before;
      Idle(before, runtime.trace);
      OnTrackFirst(runtime.script, before);
      var i := 0;
      while i < |services|
        invariant i <= |services| && Doing(before, runtime.containers, created, started) && leaks == {} && ok
        invariant Distinct(created)
        invariant old(runtime.trace) <= runtime.trace && MadeInOrder(runtime.trace, from)
        invariant AllUp(runtime.containers, runtime.trace, from, i)
        invariant |runtime.script| <= |old(runtime.script)| && (Smooth(old(runtime.script)) ==> Smooth(runtime.script))
        invariant Ready(before) ==> Untouched(before, runtime.containers, i)
        invariant OnTrack(old(runtime.script), runtime.script, before, i) && |created| <= i && |started| <= i
      {
        ghost var now, trace := runtime.containers, runtime.trace;
        var made, ran;
        ghost var leak;
        if Ready(before) { ReadyWelcomes(before, now, trace, from, i); }
        ghost var rest := runtime.script;
        ok, made, ran, leak := Bring(services[i]);
        TrackNext(old(runtime.script), rest, runtime.script, before, now, trace, from, i, ok, leak);
        TurnOrder(runtime.trace, |trace|, services[i].name);
        OrderGoesOn(trace, runtime.trace, from);
        if leak {
          Leaked(before, now, runtime.containers, created, started, services[i], made, ran);
          leaks := {services[i].name};
        } else {
          DoingGoesOn(before, now, runtime.containers, created, started, services[i], made, ran);
        }
        if made {
          NewlyCreated(before, now, runtime.containers, created, started, services[i], ran, leak);
          created := created + [services[i].name];
        }
        if ran {
          started := started + [services[i].name];
        }
        if !ok {
          assert runtime.containers - {} == runtime.containers;
          return;
        }
        OneMoreUp(now, runtime.containers, trace, runtime.trace, from, i, made, ran);
        OneMoreTouched(before, now, runtime.containers, i, made, ran);
        i := i + 1;
      }
      assert runtime.containers - {} == runtime.containers;
      TrackEnds(old(runtime.script), runtime.script, before);
    }

    lemma TrackEnds(script: seq<Step>, rest: seq<Step>, before: map<string, Container>)
      requires OnTrack(script, rest, before, |services|)
      ensures forall k :: Breaks(script, k) ==> !Fresh(before, k)
    {
      hide Leaks, Ready;
    }

    lemma NewlyCreated(before: map<string, Container>, now: map<string, Container>, after: map<string, Container>,
                       created: seq<string>, started: seq<string>, s: Service, ran: bool, leak: bool)
      requires Doing(before, now, created, started) && Brought(now, after, s, true, ran, leak)
      ensures s.name !in created
    {
    }

    lemma Idle(before: map<string, Container>, trace: seq<Event>)
      ensures Doing(before, before, [], []) && MadeInOrder(trace, |trace|) && AllUp(before, trace, |trace|, 0)
    {
    }

    lemma TurnOrder(trace: seq<Event>, from: nat, name: string)
      requires TurnOf(trace, from, name)
      ensures MadeInOrder(trace, from)
    {
    }

    lemma Leaked(before: map<string, Container>, now: map<string, Container>, after: map<string, Container>,
                 created: seq<string>, started: seq<string>, s: Service, made: bool, ran: bool)
      requires Doing(before, now, created, started) && Brought(now, after, s, made, ran, true)
      ensures after - {s.name} == now && s.name in after && !made && !ran
      ensures s.name !in before && s.name !in created && s.name !in started
    {
    }

    /** The request that asks whether the runtime is there, then a script that breaks at service `k`, and after that
        enough requests without trouble for the clean-up. */
    ghost predicate Spoils(script: seq<Step>, k: nat) {
      && k < |services|
      && Leaks(script, 1 + Before(k) + ToCreate(services[k]), services[k])
      && |script| > 1 + Before(k) + ToCreate(services[k]) + 1 + 2 * k
      && Smooth(script[1 + Before(k) + ToCreate(services[k]) + 1..])
    }

    lemma SpoilsBreaks(script: seq<Step>, k: nat)
      requires Spoils(script, k)
      ensures k < |services| && 1 <= |script| && Fine(script, 1) && Breaks(script[1..], k)
      ensures forall rest :: Breaking(script[1..], k, rest) ==> Smooth(rest) && |rest| > 2 * k
    {
      hide Smooth;
      LeaksAfter(script, 1, 1 + Before(k) + ToCreate(services[k]), services[k]);
      var n := Before(k) + ToCreate(services[k]) + 1;
      assert script[1..][n..] == script[1 + n..];
    }

    /** For every service with an egress network there is such a script. */
    lemma SomeScriptSpoils(k: nat)
      requires k < |services| && services[k].egress
      ensures exists script :: Spoils(script, k)
    {
      var n := 1 + Before(k) + ToCreate(services[k]);
      var script := seq(n, i => Step(Done, true)) + [Step(Half, true)] + seq(2 * k + 1, i => Step(Done, true));
      assert Spoils(script, k);
    }

    /** `up`. A failure without a failed clean-up leaves every container as it was, unless a `create` failed half way:
        then its container is left over. That needs a service with an egress network, and for every such service there
        is a runtime that does it. A runtime without trouble in which nothing stands in the way brings the stack
        up. */
    method Up() returns (r: Result<()>, clean: bool, ghost leaks: set<string>)
      modifies runtime
      ensures r.Ok? ==>
                && AllUp(runtime.containers, runtime.trace, |old(runtime.trace)|, |services|)
                && MadeInOrder(runtime.trace, |old(runtime.trace)|)
      ensures r.Err? && clean ==>
                && runtime.containers - leaks == old(runtime.containers)
                && (runtime.containers == old(runtime.containers) <==> leaks == {})
      ensures forall n :: n in leaks ==> exists i :: 0 <= i < |services| && services[i].name == n && services[i].egress
      ensures forall n :: n in old(runtime.containers) && !old(runtime.containers)[n].owned ==>
                n in runtime.containers && runtime.containers[n] == old(runtime.containers)[n]
      ensures r.Err? && clean && (forall i :: 0 <= i < |services| ==> !services[i].egress) ==>
                runtime.containers == old(runtime.containers)
      ensures forall k: nat | Spoils(old(runtime.script), k) && Fresh(old(runtime.containers), k) ::
                (forall i :: 0 <= i < |services| ==> valid(services[i])) ==>
                  r.Err? && clean && leaks == {services[k].name} && runtime.containers != old(runtime.containers)
      ensures && Smooth(old(runtime.script)) && runtime.script != [] && Ready(old(runtime.containers))
              && (forall i :: 0 <= i < |services| ==> valid(services[i])) ==>
                r.Ok?
      ensures (exists i :: 0 <= i < |services| && !valid(services[i])) ==>
                r.Err? && runtime.containers == old(runtime.containers) && runtime.trace == old(runtime.trace)
    {
      hide IsUp, MadeInOrder, Doing, AllUp, Ready, Smooth, Fine, Fresh, Breaks, Breaking, Spoils;
      leaks, clean := {}, true;
      ghost var before := runtime.containers;
      assert before - leaks == before;
      var v := 0;
      while v < |services|
        invariant v <= |services| && forall i :: 0 <= i < v ==> valid(services[i])
      {
        if !valid(services[v]) {
          return Err, true, {};
        }
        v := v + 1;
      }
      forall k: nat | Spoils(runtime.script, k)
        ensures k < |services| && Fine(runtime.script, 1) && 1 <= |runtime.script| && Breaks(runtime.script[1..], k)
        ensures forall rest :: Breaking(runtime.script[1..], k, rest) ==> Smooth(rest) && |rest| > 2 * k
      {
        SpoilsBreaks(runtime.script, k);
      }
      var ready := runtime.Other();
      if !ready {
        return Err, true, {};
      }
      var created, started: seq<string>, ok: bool;
      ok, created, started, leaks := BringAll();
      if ok {
        UnownedKept(before, runtime.containers - leaks, created, started);
        return Ok(()), true, leaks;
      }
      clean := Undo(created, started, before, leaks);
      r := Err;
    }

    // --- down ---

    ghost function Names(upTo: nat): set<string>
      requires upTo <= |services|
    {
      set i | 0 <= i < upTo :: services[i].name
    }

    /** Every container in a place of the stack is ours. */
    ghost predicate AllOwned(containers: map<string, Container>) {
      forall i :: 0 <= i < |services| && services[i].name in containers ==> containers[services[i].name].owned
    }

    /** Looks at every service; a container that is somebody else's fails it. */
    method Preflight() returns (ok: bool)
      modifies runtime`script, runtime`trace
      ensures old(runtime.trace) <= runtime.trace && OnlySeen(runtime.trace, |old(runtime.trace)|)
      ensures ok ==> AllOwned(runtime.containers)
      ensures |runtime.script| <= |old(runtime.script)|
      ensures Smooth(old(runtime.script)) ==>
                Smooth(runtime.script) && (runtime.script != [] && AllOwned(runtime.containers) ==> ok)
    {
      hide Smooth;
      var i := 0;
      while i < |services|
        invariant i <= |services| && |runtime.script| <= |old(runtime.script)|
        invariant Smooth(old(runtime.script)) ==> Smooth(runtime.script)
        invariant old(runtime.trace) <= runtime.trace && OnlySeen(runtime.trace, |old(runtime.trace)|)
        invariant forall k :: 0 <= k < i && services[k].name in runtime.containers ==>
                    runtime.containers[services[k].name].owned
      {
        var status := Owned(services[i]);
        if status.Err? {
          return false;
        }
        i := i + 1;
      }
      return true;
    }

    /** `down`. Nothing is touched when any container of the stack is somebody else's; a success removes exactly the
        containers of the stack, and a runtime without trouble lets it succeed. */
    method Down() returns (r: Result<()>)
      modifies runtime
      ensures !AllOwned(old(runtime.containers)) ==>
                r.Err? && runtime.containers == old(runtime.containers)
                && OnlySeen(runtime.trace, |old(runtime.trace)|)
      ensures r.Ok? ==> runtime.containers == old(runtime.containers) - Names(|services|)
      ensures forall n :: && n in old(runtime.containers)
                          && (n !in Names(|services|) || !old(runtime.containers)[n].owned) ==>
                n in runtime.containers && runtime.containers[n] == old(runtime.containers)[n]
      ensures Smooth(old(runtime.script)) && runtime.script != [] && AllOwned(old(runtime.containers)) ==> r.Ok?
    {
      hide Smooth;
      var ok := Preflight();
      if !ok {
        return Err;
      }
      ghost var before := runtime.containers;
      var i: nat := |services|;
      while i > 0
        invariant i <= |services| && runtime.containers.Keys <= before.Keys
        invariant forall n :: n in before ==> n in runtime.containers || n in Names(|services|)
        invariant forall n :: n in runtime.containers && n !in Names(|services|) ==> runtime.containers[n] == before[n]
        invariant forall n :: n in runtime.containers ==> runtime.containers[n].owned == before[n].owned
        invariant forall k :: i <= k < |services| ==> services[k].name !in runtime.containers
        invariant |runtime.script| <= |old(runtime.script)| && (Smooth(old(runtime.script)) ==> Smooth(runtime.script))
      {
        i := i - 1;
        var s := services[i];
        assert s.name in Names(|services|);
        var status := Owned(s);
        if status.Err? {
          return Err;
        }
        if status.value.Some? {
          if status.value.value.running {
            var stopped := runtime.Stop(s.name);
            if !stopped {
              return Err;
            }
          }
          var removed := runtime.Remove(s.name);
          if !removed {
            return Err;
          }
        }
      }
      var networks: set<string> := {};
      i := 0;
      while i < |services|
      {
        networks := networks + {services[i].network}
          + if services[i].egress then {services[i].network + "-egress"} else {};
        i := i + 1;
      }
      while networks != {}
        invariant runtime.containers == before - Names(|services|)
        invariant Smooth(old(runtime.script)) ==> Smooth(runtime.script)
        decreases |networks|
      {
        var network :| network in networks;
        networks := networks - {network};
        var removed := runtime.Other();
        if !removed {
          return Err;
        }
      }
      return Ok(());
    }

    // --- upgrade_image ---

    /** Nothing but the container `name` is different. */
    ghost predicate OthersSame(before: map<string, Container>, after: map<string, Container>, name: string) {
      forall n :: n != name ==> (n in before <==> n in after) && (n in before ==> after[n] == before[n])
    }

    /** The container runs the image, is ours, and passed its gate last. */
    ghost predicate Runs(containers: map<string, Container>, trace: seq<Event>, from: nat, name: string,
                         image: string) {
      && name in containers && containers[name].image == image && containers[name].owned && containers[name].running
      && GatePassed(trace, from, name)
    }

    /** Creates, starts and waits at the gate, for a service that is already configured. */
    method Replace(next: Service) returns (ok: bool)
      modifies runtime
      ensures OthersSame(old(runtime.containers), runtime.containers, next.name)
      ensures old(runtime.trace) <= runtime.trace
      ensures ok ==> Runs(runtime.containers, runtime.trace, |old(runtime.trace)|, next.name, next.image)
      ensures |runtime.script| <= |old(runtime.script)|
      ensures Smooth(old(runtime.script)) ==>
                Smooth(runtime.script) && (runtime.script != [] && next.name !in old(runtime.containers) ==> ok)
    {
      hide Smooth;
      ok := runtime.Create(next);
      if ok {
        ok := runtime.Start(next.name);
      }
      if ok {
        ok := Gate(next);
      }
    }

    /** Whatever the failed upgrade left is stopped and removed. */
    method Clear(s: Service) returns (ok: bool)
      modifies runtime`script, runtime`containers, runtime`trace
      ensures |runtime.script| <= |old(runtime.script)|
      ensures OthersSame(old(runtime.containers), runtime.containers, s.name) && old(runtime.trace) <= runtime.trace
      ensures ok ==> s.name !in runtime.containers
    {
      var status := Owned(s);
      if status.Err? {
        return false;
      }
      if status.value.Some? {
        if status.value.value.running {
          var stopped := runtime.Stop(s.name);
          if !stopped {
            return false;
          }
        }
        var removed := runtime.Remove(s.name);
        return removed;
      }
      return true;
    }

    /** The rollback: the old image is brought up again in place of what the failed upgrade left. */
    method Rollback(s: Service, oldImage: string) returns (ok: bool)
      modifies runtime
      ensures |runtime.script| <= |old(runtime.script)|
      ensures OthersSame(old(runtime.containers), runtime.containers, s.name)
      ensures old(runtime.trace) <= runtime.trace
      ensures ok ==> Runs(runtime.containers, runtime.trace, |old(runtime.trace)|, s.name, oldImage)
    {
      hide Wired, SeenFit;
      ok := Clear(s);
      if ok {
        var previous := Configured(s.(image := oldImage));
        if previous.Err? {
          return false;
        }
        ok := Replace(previous.value);
      }
    }

    /** The stack has the service, its container is ours and running, and what it would become is valid and finds its
        dependencies. */
    ghost predicate Upgradable(containers: map<string, Container>, name: string, image: string) {
      && (exists i :: 0 <= i < |services| && services[i].name == name)
      && Running(containers, name)
      && forall s :: s in services && s.name == name ==> valid(s.(image := image)) && AllFit(containers, s.connections)
    }

    /** `upgrade_image`: the new image runs, or nothing was touched, or the old container is back, or the rollback
        brought up exactly the old image; otherwise both the upgrade and the way back failed. A runtime without trouble
        lets it succeed. */
    method UpgradeImage(name: string, image: string) returns (r: Upgrade)
      modifies runtime
      ensures OthersSame(old(runtime.containers), runtime.containers, name)
      ensures !r.Refused? ==>
                && name in old(runtime.containers) && old(runtime.containers)[name].owned
                && old(runtime.containers)[name].running
      ensures r.Refused? || r == RemoveFailed(true) ==> runtime.containers == old(runtime.containers)
      ensures r == RemoveFailed(false) ==>
                runtime.containers == old(runtime.containers)[name := old(runtime.containers)[name].(running := false)]
      ensures r.Upgraded? ==> Runs(runtime.containers, runtime.trace, |old(runtime.trace)|, name, image)
      ensures r.RolledBack? ==>
                Runs(runtime.containers, runtime.trace, |old(runtime.trace)|, name, old(runtime.containers)[name].image)
      ensures && Smooth(old(runtime.script)) && runtime.script != []
              && Upgradable(old(runtime.containers), name, image) ==>
                r == Upgraded
    {
      hide Wired, SeenFit, Smooth, AllFit;
      var found := FindService(name);
      if found.None? {
        return Refused;
      }
      var s := found.value;
      var status := Owned(s);
      if status.Err? || status.value.None? || !status.value.value.running || !status.value.value.healthy {
        return Refused;
      }
      var oldImage := status.value.value.image;
      if !valid(s.(image := image)) {
        return Refused;
      }
      var next := Configured(s.(image := image));
      if next.Err? {
        return Refused;
      }
      var available := Fetched();
      if !available {
        return Refused;
      }
      var taken, why := Take(name);
      if !taken {
        return why;
      }
      var updated := Replace(next.value);
      if updated {
        return Upgraded;
      }
      var back := Rollback(s, oldImage);
      return if back then RolledBack else Lost;
    }

    /** Stops and removes the container; when it cannot be removed, it is started again. */
    method Take(name: string) returns (taken: bool, why: Upgrade)
      requires name in runtime.containers && runtime.containers[name].running
      modifies runtime`script, runtime`containers, runtime`trace
      ensures OthersSame(old(runtime.containers), runtime.containers, name) && old(runtime.trace) <= runtime.trace
      ensures taken ==> name !in runtime.containers
      ensures !taken ==> why == Refused || why.RemoveFailed?
      ensures !taken && (why == Refused || why == RemoveFailed(true)) ==> runtime.containers == old(runtime.containers)
      ensures !taken && why == RemoveFailed(false) ==>
                runtime.containers == old(runtime.containers)[name := old(runtime.containers)[name].(running := false)]
      ensures |runtime.script| <= |old(runtime.script)|
      ensures Smooth(old(runtime.script)) ==> Smooth(runtime.script) && (runtime.script != [] ==> taken)
    {
      hide Smooth;
      var stopped := runtime.Stop(name);
      if !stopped {
        return false, Refused;
      }
      var removed := runtime.Remove(name);
      if !removed {
        var back := runtime.Start(name);
        return false, RemoveFailed(back);
      }
      return true, Upgraded;
    }

    /** The image is there, or is pulled. */
    method Fetched() returns (ok: bool)
      modifies runtime`script
      ensures |runtime.script| <= |old(runtime.script)|
      ensures Smooth(old(runtime.script)) ==> Smooth(runtime.script) && (runtime.script != [] ==> ok)
    {
      var step := runtime.Next();
      ok := step.outcome.Done?;
      var available := step.healthy;
      if ok && !available {
        ok := runtime.Other();
      }
    }
  }

  // ----- upgrades -------------------------------------------------------------------------------------------------

  datatype Upgrade =
    | Upgraded
    | Refused                    // before the running container was touched
    | RemoveFailed(back: bool)   // the stopped container was started again, or not
    | RolledBack
    | Lost                       // the upgrade failed and so did the rollback

  /** `up` of one service with an egress network whose creation fails half way: the clean-up succeeds, and the container
      is left. */
  method LeaveOneBehind(s: Service, valid: Service -> bool, canonical: string -> string, address: string -> string)
    returns (runtime: Runtime, clean: bool)
    requires s.egress && s.volumes == [] && s.connections == [] && valid(s)
    ensures clean && runtime.containers.Keys == {s.name}
  {
    var fine := Step(Done, true);
    var script := [fine, fine, fine, Step(Half, true), fine];
    runtime := new Runtime(map[], script);
    var manager := new StackManager(runtime, [s], valid, canonical, address);
    assert manager.Spoils(script, 0) && manager.Fresh(map[], 0);
    var r;
    ghost var leaks;
    r, clean, leaks := manager.Up();
    assert runtime.containers - {s.name} == map[];
    assert forall n :: n in runtime.containers && n != s.name ==> n in runtime.containers - {s.name};
  }
}
