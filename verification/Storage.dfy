/** The durable state: the log file, the manifest file and the table files. Every write is one
    atomic step, and `history` records the state after each. */
module Storage {

  datatype Image = Image(wal: string, manifest: string, tables: map<string, string>)

  class Disk {
    var wal: string
    var manifest: string
    var tables: map<string, string>
    ghost var history: seq<Image>

    ghost function Now(): Image
      reads this
    {
      Image(wal, manifest, tables)
    }

    constructor (image: Image)
      ensures Now() == image && history == []
    {
      wal, manifest, tables := image.wal, image.manifest, image.tables;
      history := [];
    }

    method AppendWal(text: string)
      modifies this
      ensures Now() == old(Now()).(wal := old(wal) + text) && history == old(history) + [Now()]
    {
      wal := wal + text;
      history := history + [Now()];
    }

    method TruncateWal()
      modifies this
      ensures Now() == old(Now()).(wal := "") && history == old(history) + [Now()]
    {
      wal := "";
      history := history + [Now()];
    }

    method AppendManifest(text: string)
      modifies this
      ensures Now() == old(Now()).(manifest := old(manifest) + text) && history == old(history) + [Now()]
    {
      manifest := manifest + text;
      history := history + [Now()];
    }

    /** Writing a temporary file and renaming it over the manifest. */
    method ReplaceManifest(text: string)
      modifies this
      ensures Now() == old(Now()).(manifest := text) && history == old(history) + [Now()]
    {
      manifest := text;
      history := history + [Now()];
    }

    method WriteTable(path: string, bytes: string)
      modifies this
      ensures Now() == old(Now()).(tables := old(tables)[path := bytes]) && history == old(history) + [Now()]
    {
      tables := tables[path := bytes];
      history := history + [Now()];
    }

    method RemoveTable(path: string)
      modifies this
      ensures Now() == old(Now()).(tables := old(tables) - {path}) && history == old(history) + [Now()]
    {
      tables := tables - {path};
      history := history + [Now()];
    }
  }
}
