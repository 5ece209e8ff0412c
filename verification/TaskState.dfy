/** One rollout task: its conversation, its step counter, and how a reply moves it on. */
module TaskState {
  import opened Common

  datatype Status = Running | Completed | Failed | Skipped

  datatype Role = System | User | Assistant

  datatype Message = Message(role: Role, content: string)

  datatype Event = Turn(step: nat) | Error(step: nat)

  /**
   * What the parser and the tools make of a reply. Raises stands for a tool
   * that fails with an exception.
   */
  datatype Verdict = Malformed(observation: string) | Final | ActionsFinal | Actions(observation: string) | Raises

  /** A model reply, its verdict, and whether writing the history afterwards fails. */
  datatype Reply = Reply(text: string, verdict: Verdict, writeFails: bool)

  function StepLimit(maxSteps: int): (r: nat)
    ensures r >= 1
  {
    if maxSteps > 1 then maxSteps else 1
  }

  /** What the scheduler's bookkeeping depends on. */
  datatype TaskView = TaskView(request: nat, id: int, status: Status, steps: nat, ok: bool) {
    predicate Runs() {
      status == Running
    }
  }

  /** System, user, then assistant and user in turn. */
  ghost predicate Alternates(messages: seq<Message>) {
    forall k :: 0 <= k < |messages| ==> messages[k].role == if k == 0 then System else if k % 2 == 1 then User else Assistant
  }

  /** One event per step, numbered from 1. */
  ghost predicate Numbered(events: seq<Event>) {
    forall k :: 0 <= k < |events| ==> events[k] == Turn(k + 1)
  }

  /** The reply gives the task something to answer, and there is a step left for that. */
  ghost predicate Continues(reply: Reply, step: nat, maxSteps: int) {
    (reply.verdict.Malformed? || reply.verdict.Actions?) && step < maxSteps
  }

  class TaskRunState {
    const request: nat
    const id: int
    var status: Status
    var stepsUsed: nat
    var messages: seq<Message>
    var events: seq<Event>

    /** Holds even in the middle of a batch. */
    ghost predicate Sound(maxSteps: int)
      reads this
    {
      status != Skipped && (stepsUsed <= 1 || stepsUsed <= maxSteps)
    }

    /** Between batches: a running task has steps left, and its conversation ends with what it is to answer. */
    ghost predicate Ok(maxSteps: int)
      reads this
    {
      && Sound(maxSteps)
      && (status == Running ==>
            (stepsUsed == 0 || stepsUsed < maxSteps) && |messages| == 2 + 2 * stepsUsed && |events| == stepsUsed)
    }

    ghost function View(maxSteps: int): TaskView
      reads this
    {
      TaskView(request, id, status, stepsUsed, Ok(maxSteps))
    }

    constructor (request: nat, id: int, system: string, prompt: string)
      ensures this.request == request && this.id == id && status == Running && stepsUsed == 0
      ensures messages == [Message(System, system), Message(User, prompt)] && events == []
      ensures forall maxSteps: int :: Ok(maxSteps)
    {
      this.request, this.id, status, stepsUsed := request, id, Running, 0;
      messages := [Message(System, system), Message(User, prompt)];
      events := [];
    }

    /** One more assistant turn; false if it ended with an exception. */
    method ProcessReply(reply: Reply, maxSteps: int) returns (ok: bool)
      requires Ok(maxSteps) && status == Running
      modifies this
      ensures stepsUsed == old(stepsUsed) + 1 && Sound(maxSteps)
      ensures messages == old(messages) + [Message(Assistant, reply.text)]
                          + if Continues(reply, stepsUsed, maxSteps) then [Message(User, reply.verdict.observation)] else []
      ensures events == old(events) + if reply.verdict.Raises? then [] else [Turn(stepsUsed)]
      ensures ok <==> reply.verdict != Raises && !reply.writeFails
      ensures ok ==> Ok(maxSteps)
      ensures old(Alternates(messages)) ==> Alternates(messages)
      ensures old(Numbered(events)) ==> Numbered(events)
      ensures ok ==> (status == Completed <==> reply.verdict.Final? || reply.verdict.ActionsFinal?)
      ensures ok ==> (status == Failed <==>
                        (reply.verdict.Malformed? || reply.verdict.Actions?) && old(stepsUsed) + 1 >= maxSteps)
      ensures ok ==> (status == Running <==> Continues(reply, stepsUsed, maxSteps))
    {
      stepsUsed := stepsUsed + 1;
      var step := stepsUsed;
      messages := messages + [Message(Assistant, reply.text)];
      if reply.verdict.Raises? {
        return false;
      }
      events := events + [Turn(step)];
      if reply.verdict.Final? || reply.verdict.ActionsFinal? {
        status := Completed;
      } else if step >= maxSteps {
        status := Failed;
      } else {
        messages := messages + [Message(User, reply.verdict.observation)];
      }
      return !reply.writeFails;
    }

    /** The task's batch failed: whatever its status was, it is failed now. */
    method Fail()
      modifies this
      ensures status == Failed && stepsUsed == old(stepsUsed) && messages == old(messages)
      ensures events == old(events) + [Error(stepsUsed + 1)]
    {
      status := Failed;
      events := events + [Error(stepsUsed + 1)];
    }
  }
}
