/**
 * The mailbox directory: one file per recipient local-part, opened in
 * create-or-append mode for each delivery (`saveMsgData`). A name whose file
 * cannot be opened (the empty name denotes the directory itself, and the file
 * system may refuse others) is skipped and the remaining names are still
 * written.
 */
module Mailbox {

  /** What a file holds; a file that does not exist yet reads as empty. */
  function Contents(files: map<string, string>, name: string): string
  {
    if name in files then files[name] else ""
  }

  /** One `FileWriter(file, true)` append of `text`, or nothing when the file cannot be opened. */
  function AppendFile(files: map<string, string>, name: string, text: string, unwritable: set<string>): map<string, string>
  {
    if name in unwritable then files else files[name := Contents(files, name) + text]
  }

  /** The delivery loop: one append per name, in order, duplicates included. */
  function Deliver(files: map<string, string>, names: seq<string>, text: string, unwritable: set<string>): map<string, string>
    decreases |names|
  {
    if names == [] then files
    else AppendFile(Deliver(files, names[..|names| - 1], text, unwritable), names[|names| - 1], text, unwritable)
  }

  function Count(names: seq<string>, name: string): nat
    decreases |names|
  {
    if names == [] then 0
    else Count(names[..|names| - 1], name) + (if names[|names| - 1] == name then 1 else 0)
  }

  function Repeat(text: string, k: nat): string
    decreases k
  {
    if k == 0 then "" else Repeat(text, k - 1) + text
  }

  /**
   * After a delivery, a writable file named k times among the targets has
   * gained the text k times at its end; every other file, and every other
   * name's presence, is as before.
   */
  lemma {:induction false} DeliverContents(files: map<string, string>, names: seq<string>, text: string,
                                           unwritable: set<string>, name: string)
    ensures var after := Deliver(files, names, text, unwritable);
      if name in unwritable || Count(names, name) == 0 then
        (name in after <==> name in files) && Contents(after, name) == Contents(files, name)
      else
        name in after && after[name] == Contents(files, name) + Repeat(text, Count(names, name))
    decreases |names|
  {
    if names != [] {
      var init := names[..|names| - 1];
      DeliverContents(files, init, text, unwritable, name);
      var c := Count(init, name);
      if names[|names| - 1] == name && name !in unwritable && c > 0 {
        assert Contents(files, name) + Repeat(text, c) + text == Contents(files, name) + Repeat(text, c + 1);
      }
    }
  }

  /** Only names among the targets can appear in the directory through a delivery. */
  lemma {:induction false} DeliverKeys(files: map<string, string>, names: seq<string>, text: string,
                                       unwritable: set<string>)
    ensures Deliver(files, names, text, unwritable).Keys <= files.Keys + (set i | 0 <= i < |names| :: names[i])
    ensures files.Keys <= Deliver(files, names, text, unwritable).Keys
    decreases |names|
  {
    if names != [] {
      var init := names[..|names| - 1];
      DeliverKeys(files, init, text, unwritable);
      assert (set i | 0 <= i < |init| :: init[i]) <= (set i | 0 <= i < |names| :: names[i]) by {
        forall i | 0 <= i < |init| ensures init[i] in (set i | 0 <= i < |names| :: names[i]) {
          assert init[i] == names[i];
        }
      }
    }
  }

  /**
   * Files are append-only: two deliveries to the same writable mailbox leave
   * the old contents, then the first message, then the second.
   */
  lemma SuccessiveDeliveries(files: map<string, string>, names1: seq<string>, text1: string,
                             names2: seq<string>, text2: string, unwritable: set<string>, name: string)
    requires name !in unwritable && Count(names1, name) == 1 && Count(names2, name) == 1
    ensures var after := Deliver(Deliver(files, names1, text1, unwritable), names2, text2, unwritable);
      name in after && after[name] == Contents(files, name) + text1 + text2
  {
    var mid := Deliver(files, names1, text1, unwritable);
    DeliverContents(files, names1, text1, unwritable, name);
    DeliverContents(mid, names2, text2, unwritable, name);
    assert Repeat(text1, 1) == text1 && Repeat(text2, 1) == text2;
  }

  /** The directory of mailbox files that deliveries append to. */
  class MailStore {
    /** Names whose file the file system will not open for writing. */
    const unwritable: set<string>
    var files: map<string, string>

    constructor (existing: map<string, string>, unwritable: set<string>)
      ensures files == existing && this.unwritable == unwritable
    {
      files := existing;
      this.unwritable := unwritable;
    }

    /** Opens `name` for appending, writes `text` and closes it; a failed open changes nothing. */
    method Append(name: string, text: string)
      modifies this
      ensures files == AppendFile(old(files), name, text, unwritable)
    {
      if name !in unwritable {
        var existing := if name in files then files[name] else "";
        files := files[name := existing + text];
      }
    }
  }
}
