/** The interview store: a process-wide list of interview objects that requests
    append to and update in place by position. */
module Interviews {
  import opened Common

  datatype UpdateReply = Updated(data: Record) | NotFound(status: int, error: string)

  const InterviewNotFound := "Interview not found"

  /** The keys of a JSON object are distinct. */
  predicate DistinctKeys(d: Record)
  {
    forall i, j :: 0 <= i < j < |d| ==> d[i].0 != d[j].0
  }

  /** `d.update(req)`: each pair of `req` in turn is stored into `d`. */
  function Update(d: Record, req: Record): (r: Record)
    decreases |req|
  {
    if req == [] then d else Update(Put(d, req[0].0, req[0].1), req[1..])
  }

  /** The tail of an object with distinct keys has distinct keys and lacks the head's key. */
  lemma {:induction false} DistinctTail(req: Record)
    requires req != [] && DistinctKeys(req)
    ensures DistinctKeys(req[1..])
    ensures req[0].0 !in Keys(req[1..])
    ensures Keys(req) == [req[0].0] + Keys(req[1..])
  {
    var rest := req[1..];
    forall i, j | 0 <= i < j < |rest|
      ensures rest[i].0 != rest[j].0
    {
      assert rest[i] == req[i + 1] && rest[j] == req[j + 1];
    }
    forall i | 0 <= i < |rest|
      ensures Keys(rest)[i] != req[0].0
    {
      assert rest[i] == req[i + 1];
    }
  }

  /** After an update every key of the request has the request's value and every
      other key keeps its old value. */
  lemma {:induction false} UpdateValues(d: Record, req: Record, k: string)
    requires DistinctKeys(req)
    ensures Get(Update(d, req), k) == if k in Keys(req) then Get(req, k) else Get(d, k)
    decreases |req|
  {
    if req != [] {
      DistinctTail(req);
      UpdateValues(Put(d, req[0].0, req[0].1), req[1..], k);
    }
  }

  /** The keys already present keep their places at the front; new keys follow. */
  lemma {:induction false} UpdateKeepsOrder(d: Record, req: Record)
    ensures |d| <= |Update(d, req)| && Keys(Update(d, req))[..|d|] == Keys(d)
    decreases |req|
  {
    if req != [] {
      var d' := Put(d, req[0].0, req[0].1);
      UpdateKeepsOrder(d', req[1..]);
      assert Keys(d')[..|d|] == Keys(d);
    }
  }

  class InterviewStore {
    var interviews: seq<Record>

    constructor()
      ensures interviews == []
    {
      interviews := [];
    }

    /** `POST /api/interviews`: the interview goes at the end and is echoed back. */
    method CreateInterview(data: Record) returns (echo: Record)
      modifies this
      ensures interviews == old(interviews) + [data]
      ensures echo == data
    {
      interviews := interviews + [data];
      echo := data;
    }

    /** `PUT /api/interviews/<id>`: the request's keys are merged into that interview,
        which is echoed back; an id past the end gives 404 and changes nothing. */
    method UpdateInterview(id: nat, req: Record) returns (r: UpdateReply)
      modifies this
      ensures id < |old(interviews)| ==>
        interviews == old(interviews)[id := Update(old(interviews)[id], req)] && r == Updated(interviews[id])
      ensures id >= |old(interviews)| ==> interviews == old(interviews) && r == NotFound(404, InterviewNotFound)
    {
      if id < |interviews| {
        interviews := interviews[id := Update(interviews[id], req)];
        return Updated(interviews[id]);
      }
      return NotFound(404, InterviewNotFound);
    }
  }
}
