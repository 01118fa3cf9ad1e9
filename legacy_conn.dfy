/**
 * The older connection store of sqlutil/sqlutil/Conn.cs: the same
 * dictionary, without key validation, and a Get that never fails but falls
 * back to its argument, taken then to be a connection string.
 */
module LegacyConnections {
  import opened Strings
  import opened ConnectionEntries

  /** What Get answers for a store holding m. */
  function Lookup(m: map<string, string>, keyNameOrConnString: string): string {
    if keyNameOrConnString in m then m[keyNameOrConnString] else keyNameOrConnString
  }

  class LegacyConnectionStore {
    var connections: map<string, string>
    /** The dictionary as last written to connections.json. */
    var saved: map<string, string>

    constructor ()
      ensures connections == map[] && saved == map[]
    {
      connections := map[];
      saved := map[];
    }

    method List() returns (entries: seq<string>, ghost order: seq<string>)
      ensures |entries| == |connections|
      ensures forall k :: k in connections ==> Entry(k, connections[k]) in entries
      ensures forall s :: s in entries ==> exists k :: k in connections && s == Entry(k, connections[k])
      ensures |order| == |entries| && forall k :: k in connections <==> k in order
      ensures forall i, j :: 0 <= i < j < |order| ==> order[i] != order[j]
      ensures forall i :: 0 <= i < |order| ==> order[i] in connections && entries[i] == Entry(order[i], connections[order[i]])
    {
      entries, order := ListEntries(connections);
    }

    /** Get: the value stored under exactly that key, or else the argument itself. */
    method Get(keyNameOrConnString: string) returns (r: string)
      ensures r == Lookup(connections, keyNameOrConnString)
    {
      if keyNameOrConnString in connections {
        return connections[keyNameOrConnString];
      }
      return keyNameOrConnString;
    }

    /** Add: any key; the value is stored under the lower-cased key, then saved. */
    method Add(keyName: string, value: string)
      modifies this
      ensures connections == old(connections)[ToLower(keyName) := value] && saved == connections
      ensures ToLower(keyName) !in old(connections) ==> |connections| == |old(connections)| + 1
    {
      connections := connections[ToLower(keyName) := value];
      Save();
    }

    /** Remove: deletes the lower-cased key and saves; an absent key changes nothing and saves nothing. */
    method Remove(keyName: string) returns (removed: bool)
      modifies this
      ensures removed <==> ToLower(keyName) in old(connections)
      ensures connections == old(connections) - {ToLower(keyName)}
      ensures removed ==> saved == connections && |connections| == |old(connections)| - 1
      ensures !removed ==> saved == old(saved) && connections == old(connections)
    {
      var key := ToLower(keyName);
      if key !in connections {
        return false;
      }
      connections := connections - {key};
      Save();
      removed := true;
    }

    method Save()
      modifies this
      ensures saved == connections && connections == old(connections)
    {
      saved := connections;
    }

    method Load()
      modifies this
      ensures connections == saved && saved == old(saved)
    {
      connections := saved;
    }
  }

  /** After Add(key, v), Get of the lower-cased key gives v, whatever the key looks like. */
  lemma AddThenGetLowerCase(m: map<string, string>, key: string, v: string)
    ensures Lookup(m[ToLower(key) := v], ToLower(key)) == v
  {
  }

  /**
   * A key added with capitals, not stored as it was spelt, is read as a
   * connection string: Get gives back the key itself, not the value.
   */
  lemma AddThenGetMixedCase(m: map<string, string>, key: string, v: string)
    requires ToLower(key) != key && key !in m
    ensures Lookup(m[ToLower(key) := v], key) == key
  {
  }

  /** Adding then removing a new key, in any letter case, gives the dictionary back. */
  lemma AddThenRemove(m: map<string, string>, key: string, other: string, v: string)
    requires ToLower(key) !in m && ToLower(other) == ToLower(key)
    ensures m[ToLower(key) := v] - {ToLower(other)} == m
  {
  }
}
