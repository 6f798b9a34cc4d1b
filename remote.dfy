/** The remote pipeline service, seen only through the calls the action makes and the
    answers it gets back. */
module Remote {
  import opened Base
  import opened YamlUtils

  /** One call into the service. A pipeline to update or delete is first fetched by id;
      the fetched handle is identified by the id asked for. */
  datatype Call =
    | CreateSpace(name: string)
    | CreatePipeline(settings: Settings)
    | GetPipeline(id: Option<string>)
    | UpdatePipeline(id: Option<string>, settings: Settings)
    | DeletePipeline(id: Option<string>)

  /** What the service answers to one call: success with an id, or a failure. */
  datatype Reply = Granted(id: string) | Refused

  /** The result of the next call, given the answers still to come. Running out of
      answers counts as a failure. */
  function Answer(replies: seq<Reply>): (r: Result<string>)
    ensures r.Ok? <==> |replies| > 0 && replies[0].Granted?
    ensures r.Ok? ==> r.value == replies[0].id
  {
    if replies == [] || replies[0].Refused? then Err(RemoteFailure) else Ok(replies[0].id)
  }

  /** The answers left once one has been used. */
  function Rest(replies: seq<Reply>): (r: seq<Reply>)
    ensures |replies| > 0 ==> r == replies[1..]
    ensures |replies| == 0 ==> r == []
  {
    if replies == [] then [] else replies[1..]
  }

  /** The client: every call is recorded in `log` and answered from `replies`. */
  class Client {
    var log: seq<Call>
    var replies: seq<Reply>

    constructor (replies: seq<Reply>)
      ensures log == [] && this.replies == replies
    {
      log := [];
      this.replies := replies;
    }

    method Request(c: Call) returns (r: Result<string>)
      modifies this
      ensures r == Answer(old(replies))
      ensures log == old(log) + [c] && replies == Rest(old(replies))
    {
      r := Answer(replies);
      log := log + [c];
      replies := Rest(replies);
    }
  }
}
