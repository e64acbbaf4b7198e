/** The expense file on disk as the scripts see it: absent, present but
    empty, a table under the header `Date,Category,Amount,Description`, or a
    file whose first line is not that header (which is what appending a row
    to an absent or empty file produces). The file is an object whose
    contents the operations replace. */
module Store {
  import opened Ledger

  datatype Contents =
    | Missing              // no file of that name
    | Blank                // a file of zero bytes
    | Table(records: seq<Record>)
    | Unreadable           // a file without the header row

  /** The contents after `init_file`: a missing file is created holding only
      the header; any file that exists, even an empty one, is left alone. */
  function Initialized(c: Contents): (r: Contents)
    ensures r != Missing
    ensures c.Missing? ==> r == Table([])
    ensures !c.Missing? ==> r == c
  {
    if c.Missing? then Table([]) else c
  }

  /** Initialising an initialised file changes nothing, so calling
      `init_file` twice has the effect of calling it once. */
  lemma InitializedIdempotent(c: Contents)
    ensures Initialized(Initialized(c)) == Initialized(c)
    ensures Initialized(c) == c <==> !c.Missing?
  {
  }

  /** The contents after writing one CSV line in append mode. Below a
      header the record becomes the last row and every earlier row stays
      where it was. Without a header (a missing or empty file) the line
      itself is read back as the header, so the file no longer holds the
      four columns. */
  function Appended(c: Contents, r: Record): (n: Contents)
    ensures c.Table? <==> n.Table?
    ensures c.Table? ==> |n.records| == |c.records| + 1
    ensures c.Table? ==> n.records[..|c.records|] == c.records && n.records[|c.records|] == r
    ensures !c.Table? ==> n == Unreadable
  {
    if c.Table? then
      var rs := c.records + [r];
      assert rs[..|c.records|] == c.records;
      Table(rs)
    else Unreadable
  }

  /** The file the scripts read and write. */
  class ExpenseFile {
    var contents: Contents

    constructor (c: Contents)
      ensures contents == c
    {
      contents := c;
    }

    /** `init_file()`. */
    method InitFile()
      modifies this
      ensures contents == Initialized(old(contents))
    {
      if contents.Missing? {
        contents := Table([]);
      }
    }

    /** `csv.writer(open(name, "a")).writerow(...)`. */
    method AppendRow(r: Record)
      modifies this
      ensures contents == Appended(old(contents), r)
    {
      match contents
      case Table(rs) => contents := Table(rs + [r]);
      case _ => contents := Unreadable;
    }

    /** `df.to_csv(name, index=False)`: the header and then the rows. */
    method Save(rs: seq<Record>)
      modifies this
      ensures contents == Table(rs)
    {
      contents := Table(rs);
    }
  }
}
