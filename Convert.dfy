/**
 * `ConvertRecord` itself: the loop of the Go function over the matches of
 * the record pattern, proved to build the map `RecordParser.Fields`
 * describes.
 */
module Convert {
  import opened Strings
  import opened RecordParser

  /**
   * whois.go:15-27: the matches of the record pattern, stored into a map in
   * order, so that the map is the one `Fields` describes.
   */
  method ConvertRecord(result: string) returns (res: map<string, string>)
    ensures res == Fields(result)
    ensures forall k :: k in res ==> WellFormedField(k, res[k])
  {
    res := map[];
    var vars := Scan(result);
    for i := 0 to |vars|
      invariant res == Fold(Entries(vars), i)
    {
      var val := NormalizeValue(vars[i].value);
      var key := NormalizeKey(vars[i].key);
      FoldNext(vars, i, key, val);
      if Accepted(key, val) {
        res := res[key := val];
      }
    }
    FieldsWellFormed(result);
  }
}
