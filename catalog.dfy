/**
 * The option catalogs of the generator: two fixed, ordered lists of
 * (value, label, description) descriptors, and the lookup by value that the
 * form uses to show the description of the current choice.
 */
module Catalog {
  import opened Strings

  // `labelText` is the source's `label` (a reserved word in Dafny).
  datatype Descriptor = Descriptor(value: string, labelText: string, description: string)

  /** The four web-server choices, in display order. */
  const WebServers: seq<Descriptor> := [
    Descriptor("nginx", "Nginx", "High-performance web server"),
    Descriptor("apache2", "Apache2", "Feature-rich HTTP server"),
    Descriptor("openlitespeed", "OpenLiteSpeed", "High-performance LiteSpeed server"),
    Descriptor("mern", "MERN Stack", "MongoDB, Express, React, Node.js")
  ]

  /** The three database choices, in display order. */
  const Databases: seq<Descriptor> := [
    Descriptor("mysql", "MySQL", "Popular relational database"),
    Descriptor("mariadb", "MariaDB", "MySQL-compatible database"),
    Descriptor("mongodb", "MongoDB", "NoSQL document database")
  ]

  /** The machine values of a catalog, in order. */
  function Values(entries: seq<Descriptor>): seq<string>
  {
    seq(|entries|, i requires 0 <= i < |entries| => entries[i].value)
  }

  /** No two entries of the catalog share a value. */
  predicate DistinctValues(entries: seq<Descriptor>)
  {
    forall i, j :: 0 <= i < j < |entries| ==> entries[i].value != entries[j].value
  }

  /**
   * `entries.find(d => d.value === v)`: the first entry whose value is `v`,
   * or nothing when no entry has that value.
   */
  function Find(entries: seq<Descriptor>, v: string): (r: Option<Descriptor>)
    ensures r.None? <==> forall i :: 0 <= i < |entries| ==> entries[i].value != v
    ensures r.Some? ==>
      exists i :: 0 <= i < |entries| && entries[i] == r.value && entries[i].value == v &&
        forall j :: 0 <= j < i ==> entries[j].value != v
  {
    if entries == [] then None
    else if entries[0].value == v then Some(entries[0])
    else
      var r := Find(entries[1..], v);
      assert forall i :: 1 <= i < |entries| ==> entries[i] == entries[1..][i - 1];
      r
  }

  /** Both catalogs have pairwise distinct values, and exactly the documented ones. */
  lemma CatalogsWellFormed()
    ensures DistinctValues(WebServers) && DistinctValues(Databases)
    ensures Values(WebServers) == ["nginx", "apache2", "openlitespeed", "mern"]
    ensures Values(Databases) == ["mysql", "mariadb", "mongodb"]
  {
  }

  /**
   * In a catalog with distinct values, looking up the value of an entry
   * finds that very entry.
   */
  lemma FindsOwnEntry(entries: seq<Descriptor>, i: nat)
    requires DistinctValues(entries) && i < |entries|
    ensures Find(entries, entries[i].value) == Some(entries[i])
  {
  }

  /** Lookup succeeds exactly for the values listed in the catalog. */
  lemma FindSucceedsIffListed(entries: seq<Descriptor>, v: string)
    ensures Find(entries, v).Some? <==> v in Values(entries)
  {
    if v in Values(entries) {
      var i :| 0 <= i < |Values(entries)| && Values(entries)[i] == v;
      assert entries[i].value == v;
    }
    if Find(entries, v).Some? {
      var i :| 0 <= i < |entries| && entries[i].value == v;
      assert Values(entries)[i] == v;
    }
  }
}
