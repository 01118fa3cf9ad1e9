/**
 * What the two connection stores share: the "key = value" lines List
 * prints, and the facts about lowercasing that their lookups rely on.
 */
module ConnectionEntries {
  import opened Strings

  /** One line of List: the key, " = ", the value. */
  function Entry(key: string, value: string): string {
    key + " = " + value
  }

  /**
   * List: one "key = value" line per entry of the dictionary, in the
   * dictionary's enumeration order (left open here: any order). The
   * enumeration order is the ghost sequence `order`: each key exactly once,
   * the i-th line being the i-th key's entry.
   */
  method ListEntries(m: map<string, string>) returns (entries: seq<string>, ghost order: seq<string>)
    ensures |entries| == |m|
    ensures forall k :: k in m ==> Entry(k, m[k]) in entries
    ensures forall s :: s in entries ==> exists k :: k in m && s == Entry(k, m[k])
    ensures |order| == |entries| && forall k :: k in m <==> k in order
    ensures forall i, j :: 0 <= i < j < |order| ==> order[i] != order[j]
    ensures forall i :: 0 <= i < |order| ==> order[i] in m && entries[i] == Entry(order[i], m[order[i]])
  {
    var keys := m.Keys;
    order := [];
    entries := [];
    while keys != {}
      invariant keys <= m.Keys && |order| + |keys| == |m| && |entries| == |order|
      invariant forall i :: 0 <= i < |order| ==> order[i] in m && order[i] !in keys
      invariant forall i :: 0 <= i < |order| ==> entries[i] == Entry(order[i], m[order[i]])
      invariant forall i, j :: 0 <= i < j < |order| ==> order[i] != order[j]
      invariant forall k :: k in m && k !in keys ==> k in order
      decreases |keys|
    {
      var k :| k in keys;
      entries := entries + [Entry(k, m[k])];
      order := order + [k];
      keys := keys - {k};
    }
    EntriesOfOrder(m, entries, order);
  }

  /** Lines listed key by key, each key once, are exactly the entries of the dictionary. */
  lemma EntriesOfOrder(m: map<string, string>, entries: seq<string>, order: seq<string>)
    requires |order| == |entries| && forall k :: k in m ==> k in order
    requires forall i :: 0 <= i < |order| ==> order[i] in m && entries[i] == Entry(order[i], m[order[i]])
    ensures forall k :: k in m ==> Entry(k, m[k]) in entries
    ensures forall s :: s in entries ==> exists k :: k in m && s == Entry(k, m[k])
  {
    forall s | s in entries
      ensures exists k :: k in m && s == Entry(k, m[k])
    {
      var i :| 0 <= i < |entries| && entries[i] == s;
      assert order[i] in m;
    }
    forall k | k in m
      ensures Entry(k, m[k]) in entries
    {
      var i :| 0 <= i < |order| && order[i] == k;
      assert entries[i] == Entry(k, m[k]);
    }
  }

  /** Lowercasing twice is lowercasing once. */
  lemma ToLowerIdempotent(s: string)
    ensures ToLower(ToLower(s)) == ToLower(s)
  {
    forall i | 0 <= i < |s|
      ensures ToLower(ToLower(s))[i] == ToLower(s)[i]
    {
      assert LowerChar(LowerChar(s[i])) == LowerChar(s[i]);
    }
  }

  /** Lowercasing keeps every character that is not a letter, ';' and '=' among them. */
  lemma ToLowerKeeps(s: string, c: char)
    requires !('A' <= c <= 'Z') && !('a' <= c <= 'z')
    ensures c in ToLower(s) <==> c in s
  {
    if c in s {
      var i :| 0 <= i < |s| && s[i] == c;
      assert ToLower(s)[i] == c;
    }
    if c in ToLower(s) {
      var i :| 0 <= i < |s| && ToLower(s)[i] == c;
      assert s[i] == c;
    }
  }
}

/**
 * The connection store of sqlutil/Conn.cs: a dictionary from lower-case key
 * names to connection strings, written to connections.json after each
 * change. The file's contents are the field saved.
 */
module Connections {
  import opened Wrappers
  import opened Strings
  import opened ConnectionEntries

  /** A text with ';' or '=' is taken to be a connection string, not a key. */
  predicate IsConnectionString(s: string) {
    ';' in s || '=' in s
  }

  function NotFound(key: string): string {
    "Key named '" + key + "' was not found."
  }

  const BadKeyName := "Key name cannot contain ';' or '='"

  /** What Get answers for a store holding m. */
  function Lookup(m: map<string, string>, keyNameOrConnString: string): Result<string, string> {
    if IsConnectionString(keyNameOrConnString) then Success(keyNameOrConnString)
    else if keyNameOrConnString in m then Success(m[keyNameOrConnString])
    else Failure(NotFound(keyNameOrConnString))
  }

  class ConnectionStore {
    /** The in-memory dictionary. */
    var connections: map<string, string>
    /** The dictionary as last written to connections.json. */
    var saved: map<string, string>

    constructor ()
      ensures connections == map[] && saved == map[]
    {
      connections := map[];
      saved := map[];
    }

    method List() returns (entries: seq<string>, ghost order: seq<string>)
      ensures |entries| == |connections|
      ensures forall k :: k in connections ==> Entry(k, connections[k]) in entries
      ensures forall s :: s in entries ==> exists k :: k in connections && s == Entry(k, connections[k])
      ensures |order| == |entries| && forall k :: k in connections <==> k in order
      ensures forall i, j :: 0 <= i < j < |order| ==> order[i] != order[j]
      ensures forall i :: 0 <= i < |order| ==> order[i] in connections && entries[i] == Entry(order[i], connections[order[i]])
    {
      entries, order := ListEntries(connections);
    }

    /**
     * Get: a connection string is returned as it is; otherwise the value
     * stored under exactly that key, or an error when there is none.
     */
    method Get(keyNameOrConnString: string) returns (r: Result<string, string>)
      ensures r == Lookup(connections, keyNameOrConnString)
    {
      if ';' in keyNameOrConnString || '=' in keyNameOrConnString {
        return Success(keyNameOrConnString);
      }
      if keyNameOrConnString in connections {
        return Success(connections[keyNameOrConnString]);
      }
      return Failure(NotFound(keyNameOrConnString));
    }

    /**
     * Add: refuses a key with ';' or '=' and changes nothing; otherwise
     * stores the value under the lower-cased key and saves.
     */
    method Add(keyName: string, value: string) returns (r: Outcome<string>)
      modifies this
      ensures IsConnectionString(keyName) ==>
        r == Fail(BadKeyName) && connections == old(connections) && saved == old(saved)
      ensures !IsConnectionString(keyName) ==>
        r == Pass && connections == old(connections)[ToLower(keyName) := value] && saved == connections
      ensures !IsConnectionString(keyName) && ToLower(keyName) !in old(connections) ==>
        |connections| == |old(connections)| + 1
    {
      if ';' in keyName || '=' in keyName {
        return Fail(BadKeyName);
      }
      connections := connections[ToLower(keyName) := value];
      Save();
      r := Pass;
    }

    /** Remove: deletes the lower-cased key and saves; an absent key changes nothing and saves nothing. */
    method Remove(keyName: string) returns (removed: bool)
      modifies this
      ensures removed <==> ToLower(keyName) in old(connections)
      ensures connections == old(connections) - {ToLower(keyName)}
      ensures removed ==> saved == connections && |connections| == |old(connections)| - 1
      ensures !removed ==> saved == old(saved)
    {
      var key := ToLower(keyName);
      if key !in connections {
        return false;
      }
      connections := connections - {key};
      Save();
      removed := true;
    }

    /** Save: connections.json now holds the dictionary. */
    method Save()
      modifies this
      ensures saved == connections && connections == old(connections)
    {
      saved := connections;
    }

    /** Load: the dictionary is read back from connections.json (empty when never saved). */
    method Load()
      modifies this
      ensures connections == saved && saved == old(saved)
    {
      connections := saved;
    }
  }

  /** After Add(key, v), Get of the lower-cased key gives v. */
  lemma AddThenGetLowerCase(m: map<string, string>, key: string, v: string)
    requires !IsConnectionString(key)
    ensures Lookup(m[ToLower(key) := v], ToLower(key)) == Success(v)
  {
    ToLowerKeeps(key, ';');
    ToLowerKeeps(key, '=');
  }

  /** Get does not lower-case: a key added with capitals, and not stored as it was spelt, is not found. */
  lemma AddThenGetMixedCase(m: map<string, string>, key: string, v: string)
    requires !IsConnectionString(key) && ToLower(key) != key && key !in m
    ensures Lookup(m[ToLower(key) := v], key) == Failure(NotFound(key))
  {
  }

  /** Every key the store can hold after Add is lower case and could never be mistaken for a connection string. */
  lemma AddedKeysAreKeys(m: map<string, string>, key: string, v: string, k: string)
    requires !IsConnectionString(key)
    requires forall k' :: k' in m ==> ToLower(k') == k' && !IsConnectionString(k')
    requires k in m[ToLower(key) := v]
    ensures ToLower(k) == k && !IsConnectionString(k)
  {
    if k == ToLower(key) {
      ToLowerIdempotent(key);
      ToLowerKeeps(key, ';');
      ToLowerKeeps(key, '=');
    }
  }
}
