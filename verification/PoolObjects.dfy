/** The two pools as objects: each critical section as a method, proved to make the step of the
    interleaving system on the data it guards. */
module PoolObjects {
  import opened Pools

  class ThreadPool {
    const maxRequest: nat
    var workQueue: seq<nat>

    constructor (limit: nat)
      ensures maxRequest == limit && workQueue == []
    {
      maxRequest, workQueue := limit, [];
    }

    /** append, between lock() and unlock(), by an idle appender of the system in state s */
    method AppendSection(task: nat, ghost c: Config, ghost s: State, ghost a: nat) returns (ok: bool)
      requires c.maxRequest == maxRequest && s.queue == workQueue && a in s.appenders && s.appenders[a].Idle?
      modifies this
      ensures ok <==> |old(workQueue)| < maxRequest
      ensures workQueue == if ok then old(workQueue) + [task] else old(workQueue)
      ensures var n := Next(c, s, Append(a, task));
        n.Some? && n.value.queue == workQueue && (ok <==> n.value.appenders[a].Pushed?)
    {
      if |workQueue| >= maxRequest {
        return false;
      }
      workQueue := workQueue + [task];
      return true;
    }

    /** work, between lock() and unlock(), by a worker of the system that holds a token.  In a
        reachable state the branch for an empty queue is never taken. */
    method TakeSection(ghost c: Config, ghost s: State, ghost t: nat) returns (found: bool, task: nat)
      requires s.queue == workQueue && t in s.workers && s.workers[t].HasToken?
      modifies this
      ensures found <==> old(workQueue) != []
      ensures found ==> task == old(workQueue)[0] && workQueue == old(workQueue)[1..]
      ensures !found ==> workQueue == old(workQueue)
      ensures var n := Next(c, s, TakeTask(t));
        && n.Some? && n.value.queue == workQueue
        && n.value.dequeued == (if found then s.dequeued + [task] else s.dequeued)
        && n.value.workers == s.workers[t := if found && task != NULL_TASK then HasTask(task) else AtTop]
      ensures Inv(c, s) ==> found
    {
      if Inv(c, s) {
        TokenMeansTask(c, s, t);
      }
      if |workQueue| == 0 {
        return false, 0;
      }
      task := workQueue[0];
      workQueue := workQueue[1..];
      found := true;
    }
  }

  class ConnectionPool {
    var connList: seq<int>
    var freeConn: int
    var curConn: int
    var maxConn: int
    var reserve: nat

    constructor ()
      ensures connList == [] && freeConn == curConn == 0
    {
      connList, freeConn, curConn, maxConn, reserve := [], 0, 0, 0, 0;
    }

    /** init, with the handles that mysql_real_connect returns; a failure ends the process. */
    method Init(handles: seq<int>)
      requires connList == [] && freeConn == curConn == 0
      modifies this
      ensures connList == handles && freeConn == maxConn == |handles| && reserve == |handles| && curConn == 0
    {
      for i := 0 to |handles|
        invariant connList == handles[..i] && freeConn == i && curConn == 0
      {
        connList := connList + [handles[i]];
        freeConn := freeConn + 1;
      }
      assert handles[..|handles|] == handles;
      reserve := freeConn;
      maxConn := freeConn;
    }

    /** getConnection, between lock() and unlock(), by a worker past reserve.wait() */
    method GetSection(ghost c: Config, ghost s: State, ghost t: nat) returns (con: int)
      requires Inv(c, s) && s.conList == connList && s.freeConn == freeConn && s.curConn == curConn
      requires t in s.workers && s.workers[t].HasConToken?
      modifies this
      ensures old(connList) != [] && con == old(connList)[0] && reserve == old(reserve) && maxConn == old(maxConn)
      ensures var n := Next(c, s, TakeCon(t));
        n.Some? && n.value.conList == connList && n.value.freeConn == freeConn && n.value.curConn == curConn
        && n.value.workers[t] == Working(s.workers[t].task, con)
    {
      TokenMeansCon(c, s, t);
      con := connList[0];
      connList := connList[1..];
      freeConn := freeConn - 1;
      curConn := curConn + 1;
    }

    /** releaseConnection, between lock() and unlock() */
    method ReleaseSection(con: int, ghost c: Config, ghost s: State, ghost t: nat)
      requires Inv(c, s) && s.conList == connList && s.freeConn == freeConn && s.curConn == curConn
      requires t in s.workers && s.workers[t].Working? && s.workers[t].con == con
      modifies this
      ensures con !in old(connList) && connList == old(connList) + [con]
      ensures freeConn + curConn == old(freeConn + curConn)
      ensures var n := Next(c, s, PutCon(t));
        n.Some? && n.value.conList == connList && n.value.freeConn == freeConn && n.value.curConn == curConn
    {
      HolderIn(s.workers);
      connList := connList + [con];
      freeConn := freeConn + 1;
      curConn := curConn - 1;
    }
  }
}
