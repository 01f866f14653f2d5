/** Resource vectors and their sums over the registered tasks of a worker. */
module Resources {
  type Resources = map<string, real>

  datatype Task = Task(upstream: int, resources: Resources)

  /** A missing key counts as zero, as in a Go map lookup. */
  function Get(r: Resources, key: string): real {
    if key in r then r[key] else 0.0
  }

  ghost predicate NonNegative(r: Resources) {
    forall key :: key in r ==> r[key] >= 0.0
  }

  /** How much of `key` the tasks use together. */
  ghost function InUse(tasks: map<string, Task>, key: string): real
    decreases |tasks|
  {
    if tasks == map[] then 0.0
    else
      var id :| id in tasks;
      Get(tasks[id].resources, key) + InUse(tasks - {id}, key)
  }

  /** The sum does not depend on the order of summation. */
  lemma {:induction false} InUseRemove(tasks: map<string, Task>, id: string, key: string)
    requires id in tasks
    ensures InUse(tasks, key) == Get(tasks[id].resources, key) + InUse(tasks - {id}, key)
    decreases |tasks|
  {
    var first :| first in tasks &&
      InUse(tasks, key) == Get(tasks[first].resources, key) + InUse(tasks - {first}, key);
    if first != id {
      InUseRemove(tasks - {first}, id, key);
      InUseRemove(tasks - {id}, first, key);
      assert tasks - {first} - {id} == tasks - {id} - {first};
    }
  }

  lemma InUseAdd(tasks: map<string, Task>, id: string, task: Task, key: string)
    requires id !in tasks
    ensures InUse(tasks[id := task], key) == Get(task.resources, key) + InUse(tasks, key)
  {
    InUseRemove(tasks[id := task], id, key);
    assert tasks[id := task] - {id} == tasks;
  }

  lemma {:induction false} InUseNonNegative(tasks: map<string, Task>, key: string)
    requires forall id :: id in tasks ==> NonNegative(tasks[id].resources)
    ensures InUse(tasks, key) >= 0.0
    decreases |tasks|
  {
    if tasks != map[] {
      var id :| id in tasks;
      InUseRemove(tasks, id, key);
      InUseNonNegative(tasks - {id}, key);
    }
  }

  /** The resources fit next to what the tasks use. */
  ghost predicate Fits(total: Resources, tasks: map<string, Task>, resources: Resources) {
    forall key :: key in resources ==> InUse(tasks, key) + resources[key] <= Get(total, key)
  }

  /** Deregistering a task frees resources, whatever is asked for, exactly if it uses no negative amount. */
  lemma FreesExactly(tasks: map<string, Task>, id: string)
    requires id in tasks
    ensures NonNegative(tasks[id].resources) <==>
      forall total, resources :: Fits(total, tasks, resources) ==> Fits(total, tasks - {id}, resources)
  {
    if NonNegative(tasks[id].resources) {
      forall total, resources | Fits(total, tasks, resources) ensures Fits(total, tasks - {id}, resources) {
        FitsAfterRemoval(total, tasks, id, resources);
      }
    } else {
      var key :| key in tasks[id].resources && tasks[id].resources[key] < 0.0;
      var total, resources := map[key := InUse(tasks, key)], map[key := 0.0];
      InUseRemove(tasks, id, key);
      assert Fits(total, tasks, resources) && !Fits(total, tasks - {id}, resources);
    }
  }

  /** Deregistering a task only frees resources. */
  lemma FitsAfterRemoval(total: Resources, tasks: map<string, Task>, id: string, resources: Resources)
    requires id in tasks && NonNegative(tasks[id].resources) && Fits(total, tasks, resources)
    ensures Fits(total, tasks - {id}, resources)
  {
    forall key | key in resources ensures InUse(tasks - {id}, key) + resources[key] <= Get(total, key) {
      InUseRemove(tasks, id, key);
    }
  }
}
