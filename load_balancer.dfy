/** The load-balancer game: requests arrive in a queue on one timer, server
    loads decay on another, and the player routes the oldest request to a
    server. Routing a request that pushes a server past 100 ends the game. */
module LoadBalancerGame {

  datatype Status = Healthy | Unhealthy | Overloaded

  datatype ServerNode = ServerNode(id: int, load: int, status: Status)

  /** Three idle, healthy servers numbered from one. */
  const InitialServers: seq<ServerNode> :=
    [ServerNode(1, 0, Healthy), ServerNode(2, 0, Healthy), ServerNode(3, 0, Healthy)]

  /** The decay tick on one server: ten points off the load, never below
      zero, and the status judged from the load before the decay. */
  function Decayed(s: ServerNode): ServerNode {
    s.(load := if s.load - 10 > 0 then s.load - 10 else 0,
       status := if s.load > 80 then Overloaded else if s.status == Unhealthy then Unhealthy else Healthy)
  }

  /** The routed server passes 100, which ends the game. */
  predicate Overflows(s: ServerNode) {
    s.load + 20 > 100
  }

  /** Routing one request to this server: twenty more points of load. */
  function Routed(s: ServerNode): ServerNode {
    var newLoad := s.load + 20;
    var newStatus := if Overflows(s) then Overloaded else if newLoad > 80 then Overloaded else s.status;
    s.(load := newLoad, status := newStatus)
  }

  /** `servers.map(...)` in the decay tick. */
  function DecayAll(servers: seq<ServerNode>): seq<ServerNode> {
    seq(|servers|, k requires 0 <= k < |servers| => Decayed(servers[k]))
  }

  /** `servers.map(...)` in the routing handler: only servers with the
      chosen id are routed to. */
  function RouteAll(servers: seq<ServerNode>, serverId: int): seq<ServerNode> {
    seq(|servers|, k requires 0 <= k < |servers| => if servers[k].id != serverId then servers[k] else Routed(servers[k]))
  }

  /** Some server with the chosen id overflows while being routed to. */
  predicate RouteOverflows(servers: seq<ServerNode>, serverId: int) {
    exists k :: 0 <= k < |servers| && servers[k].id == serverId && Overflows(servers[k])
  }

  /** What holds of every server at every point of a game: loads in steps
      of ten between 0 and 120, never `Unhealthy`, and a status that agrees
      with the load (above 80 is overloaded, overloaded is at least 80). */
  ghost predicate ServerOk(s: ServerNode) {
    && s.load % 10 == 0
    && 0 <= s.load <= 120
    && s.status != Unhealthy
    && (s.load > 80 ==> s.status == Overloaded)
    && (s.status == Overloaded ==> s.load >= 80)
  }

  /** Three servers numbered 1 to 3, each `ServerOk`, and the game is over
      exactly when some load is above 100. */
  ghost predicate Consistent(servers: seq<ServerNode>, gameOver: bool) {
    && |servers| == 3
    && (forall k :: 0 <= k < 3 ==> servers[k].id == k + 1 && ServerOk(servers[k]))
    && (gameOver <==> exists k :: 0 <= k < 3 && servers[k].load > 100)
  }

  lemma InitialConsistent()
    ensures Consistent(InitialServers, false)
  {
  }

  /** While the game runs, every load is at most 100. */
  lemma LoadBoundedWhilePlaying(servers: seq<ServerNode>, k: nat)
    requires Consistent(servers, false) && k < |servers|
    ensures servers[k].load <= 100
  {
  }

  /** Routing changes only the chosen server: its id stays, its load grows
      by exactly 20, it becomes overloaded above 80 and keeps its status
      otherwise; every other server is untouched. */
  lemma RouteOnlyChosen(servers: seq<ServerNode>, serverId: int, k: nat)
    requires k < |servers|
    ensures |RouteAll(servers, serverId)| == |servers|
    ensures RouteAll(servers, serverId)[k].id == servers[k].id
    ensures servers[k].id != serverId ==> RouteAll(servers, serverId)[k] == servers[k]
    ensures servers[k].id == serverId ==>
      && RouteAll(servers, serverId)[k].load == servers[k].load + 20
      && RouteAll(servers, serverId)[k].status ==
           if servers[k].load + 20 > 80 then Overloaded else servers[k].status
  {
  }

  /** Routing in a running game keeps every server consistent, and the game
      is over afterwards exactly when the routed server overflowed. */
  lemma RoutePreservesConsistency(servers: seq<ServerNode>, serverId: int)
    requires Consistent(servers, false)
    ensures Consistent(RouteAll(servers, serverId), RouteOverflows(servers, serverId))
  {
    var routed := RouteAll(servers, serverId);
    forall k | 0 <= k < 3 ensures routed[k].id == k + 1 && ServerOk(routed[k]) {
      if servers[k].id == serverId {
        RoutedOk(servers[k]);
      }
    }
    if RouteOverflows(servers, serverId) {
      var k :| 0 <= k < |servers| && servers[k].id == serverId && Overflows(servers[k]);
      assert routed[k].load > 100;
    }
    if k :| 0 <= k < 3 && routed[k].load > 100 {
      assert servers[k].id == serverId && Overflows(servers[k]);
    }
  }

  lemma RoutedOk(s: ServerNode)
    requires ServerOk(s) && s.load <= 100
    ensures ServerOk(Routed(s))
    ensures Routed(s).load > 100 <==> Overflows(s)
  {
  }

  /** The decay tick keeps a running game consistent and running, and never
      makes a load negative. */
  lemma DecayPreservesConsistency(servers: seq<ServerNode>)
    requires Consistent(servers, false)
    ensures Consistent(DecayAll(servers), false)
    ensures forall k :: 0 <= k < |servers| ==> 0 <= DecayAll(servers)[k].load <= servers[k].load
  {
    var decayed := DecayAll(servers);
    forall k | 0 <= k < 3 ensures decayed[k].id == k + 1 && ServerOk(decayed[k]) && decayed[k].load <= 100 {
      DecayedOk(servers[k]);
    }
  }

  lemma DecayedOk(s: ServerNode)
    requires ServerOk(s) && s.load <= 100
    ensures ServerOk(Decayed(s)) && Decayed(s).load <= s.load
  {
  }

  /** One mounted game. */
  class Game {
    var servers: seq<ServerNode>
    var score: int
    var gameOver: bool
    /** Arrival times of the queued requests, oldest first. */
    var requests: seq<int>

    ghost predicate Valid()
      reads this
    {
      Consistent(servers, gameOver) && score >= 0 && score % 10 == 0
    }

    constructor ()
      ensures Valid()
      ensures servers == InitialServers && score == 0 && !gameOver && requests == []
    {
      servers := InitialServers;
      score := 0;
      gameOver := false;
      requests := [];
    }

    /** Clicking a server: the oldest request goes to it. */
    method RouteRequest(serverId: int)
      requires Valid()
      modifies this
      ensures Valid()
      ensures old(gameOver) || old(requests) == [] ==>
        servers == old(servers) && score == old(score) && gameOver == old(gameOver) && requests == old(requests)
      ensures !old(gameOver) && old(requests) != [] ==>
        && requests == old(requests)[1..]
        && servers == RouteAll(old(servers), serverId)
        && gameOver == RouteOverflows(old(servers), serverId)
        && score == old(score) + 10
    {
      if gameOver {
        return;
      }
      if |requests| == 0 {
        return;
      }
      requests := requests[1..];
      RoutePreservesConsistency(servers, serverId);
      var overflow := RouteOverflows(servers, serverId);
      servers := RouteAll(servers, serverId);
      if overflow {
        gameOver := true;
      }
      score := score + 10;
    }

    /** The one-second timer. It runs only while the game is not over. */
    method DecayTick()
      requires Valid()
      modifies this
      ensures Valid()
      ensures score == old(score) && gameOver == old(gameOver) && requests == old(requests)
      ensures servers == if old(gameOver) then old(servers) else DecayAll(old(servers))
    {
      if gameOver {
        return;
      }
      DecayPreservesConsistency(servers);
      servers := DecayAll(servers);
    }

    /** The two-second timer, with the clock reading `now` as the new
        request. It runs only while the game is not over. */
    method EnqueueTick(now: int)
      requires Valid()
      modifies this
      ensures Valid()
      ensures servers == old(servers) && score == old(score) && gameOver == old(gameOver)
      ensures requests == if old(gameOver) then old(requests) else old(requests) + [now]
    {
      if gameOver {
        return;
      }
      requests := requests + [now];
    }

    /** "Reboot System". */
    method ResetGame()
      modifies this
      ensures Valid()
      ensures servers == InitialServers && score == 0 && !gameOver && requests == []
    {
      servers := InitialServers;
      score := 0;
      gameOver := false;
      requests := [];
    }
  }
}
