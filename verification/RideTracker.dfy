// The active rides: a list in order of arrival and a map from ride IDs to list nodes.
module RideTracker {
  import opened Options
  import opened LinkedNodes
  import Dispatch

  datatype Tracked = Tracked(id: int, ride: Dispatch.Ride)

  datatype Error = InvalidRide | DuplicateRide | RideNotFound

  class ActiveRideTracker {
    const rides: List<Tracked>
    var nodeOf: map<int, Node<Tracked>>

    // Every listed node is found under its ride's ID, and nothing else is.
    ghost predicate Agree()
      reads this, rides, rides.nodes
    {
      && (forall n :: n in rides.nodes ==> n.value.id in nodeOf && nodeOf[n.value.id] == n)
      && (forall id :: id in nodeOf ==> nodeOf[id] in rides.nodes && nodeOf[id].value.id == id)
    }

    ghost predicate Valid()
      reads this, rides, rides.nodes
    {
      rides.Valid() && Agree()
    }

    // The rides in order.
    ghost function Contents(): seq<Tracked>
      reads rides
    {
      rides.values
    }

    constructor ()
      ensures Valid() && Contents() == [] && fresh(rides) && rides.nodes == []
    {
      rides := new List();
      nodeOf := map[];
    }

    method Add(id: int, ride: Dispatch.Ride) returns (error: Option<Error>)
      requires Valid()
      modifies this, rides, rides.nodes
      ensures Valid()
      ensures !Dispatch.ValidRide(ride) ==> error == Some(InvalidRide)
      ensures Dispatch.ValidRide(ride) ==>
        error == if Listed(old(Contents()), id) then Some(DuplicateRide) else None
      ensures Contents() == if error.Some? then old(Contents()) else old(Contents()) + [Tracked(id, ride)]
      ensures forall i :: 0 <= i < |rides.nodes| ==> rides.nodes[i] in old(rides.nodes) || fresh(rides.nodes[i])
    {
      if !Dispatch.ValidRide(ride) {
        return Some(InvalidRide);
      }
      KeysListed(id);
      if id in nodeOf {
        return Some(DuplicateRide);
      }
      var node := rides.PushBack(Tracked(id, ride));
      nodeOf := nodeOf[id := node];
      return None;
    }

    lemma KeysListed(id: int)
      requires Valid()
      ensures id in nodeOf <==> Listed(Contents(), id)
    {
      if id in nodeOf {
        var i :| 0 <= i < |rides.nodes| && rides.nodes[i] == nodeOf[id];
        assert Contents()[i].id == id;
      }
      if i :| 0 <= i < |Contents()| && Contents()[i].id == id {
        assert rides.nodes[i] in rides.nodes;
      }
    }

    // No ID is listed twice.
    lemma IdsDistinct(i: int, j: int)
      requires Valid() && 0 <= i < j < |Contents()|
      ensures Contents()[i].id != Contents()[j].id
    {
      assert rides.nodes[i] in rides.nodes && rides.nodes[j] in rides.nodes;
    }

    method Get(id: int) returns (ride: Option<Dispatch.Ride>)
      requires Valid()
      ensures ride.None? <==> !Listed(Contents(), id)
      ensures ride.Some? ==> Tracked(id, ride.value) in Contents()
    {
      KeysListed(id);
      if id !in nodeOf {
        return None;
      }
      ghost var i :| 0 <= i < |rides.nodes| && rides.nodes[i] == nodeOf[id];
      assert Contents()[i] == nodeOf[id].value;
      return Some(nodeOf[id].value.ride);
    }

    method Remove(id: int) returns (ride: Option<Dispatch.Ride>)
      requires Valid()
      modifies this, rides, rides.nodes
      ensures Valid()
      ensures ride.None? <==> !Listed(old(Contents()), id)
      ensures ride.None? ==> Contents() == old(Contents())
      ensures ride.Some? ==> TakenOut(old(Contents()), Contents(), Tracked(id, ride.value))
      ensures forall i :: 0 <= i < |rides.nodes| ==> rides.nodes[i] in old(rides.nodes)
    {
      KeysListed(id);
      if id !in nodeOf {
        return None;
      }
      var value := Forget(id);
      return Some(value);
    }

    method Forget(id: int) returns (ride: Dispatch.Ride)
      requires Valid() && id in nodeOf
      modifies this, rides, rides.nodes
      ensures Valid() && TakenOut(old(Contents()), Contents(), Tracked(id, ride))
      ensures forall i :: 0 <= i < |rides.nodes| ==> rides.nodes[i] in old(rides.nodes)
    {
      var node := nodeOf[id];
      var value := rides.Remove(node);
      nodeOf := nodeOf - {id};
      forall n | n in rides.nodes ensures n.value.id in nodeOf && nodeOf[n.value.id] == n {
        assert n in old(rides.nodes) && n.value == old(n.value);
      }
      return value.value.ride;
    }
  }

  predicate Listed(rides: seq<Tracked>, id: int) {
    exists i :: 0 <= i < |rides| && rides[i].id == id
  }
}
