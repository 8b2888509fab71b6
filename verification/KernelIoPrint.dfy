/** The printed text of a scan, line by line: every fault class with its severity and its count,
    and the order in which the classes are looked for. */
module KernelIoPrint {
  import opened Text
  import opened Decimal
  import opened Order
  import opened KernelIoText
  import opened KernelIo
  import opened KernelIoRuns

  // ---------- which class a line is given ----------

  /** The first class that is found wins, from the remounted file system down to the port. */
  lemma ClassifyExactly(hits: Patterns, line: string)
    ensures Classify(hits, line) ==
            if hits("ext4_remount_ro", line) then Some("ext4_remount_ro")
            else if hits("scsi_offline", line) then Some("scsi_offline")
            else if hits("disk_zero_capacity", line) then Some("disk_zero_capacity")
            else if hits("ext4_error", line) then Some("ext4_error")
            else if hits("journal_aborted", line) then Some("journal_aborted")
            else if hits("block_io_error", line) then Some("block_io_error")
            else if hits("uas_fault", line) then Some("uas_fault")
            else if hits("usb_disconnect", line) then Some("usb_disconnect")
            else if hits("usb_reset", line) then Some("usb_reset")
            else if hits("usb_over_current", line) then Some("usb_over_current")
            else None
  {
    var names := Classes();
    assert names[0..] == names && names[10..] == [];
    assert names[0] == "ext4_remount_ro" && names[1] == "scsi_offline" && names[2] == "disk_zero_capacity" && names[3] == "ext4_error";
    assert names[4] == "journal_aborted" && names[5] == "block_io_error" && names[6] == "uas_fault" && names[7] == "usb_disconnect";
    assert names[8] == "usb_reset" && names[9] == "usb_over_current";
    hide Classes, ClassifyFrom;
    NextClass(names, 0, hits, line);
    NextClass(names, 1, hits, line);
    NextClass(names, 2, hits, line);
    NextClass(names, 3, hits, line);
    NextClass(names, 4, hits, line);
    NextClass(names, 5, hits, line);
    NextClass(names, 6, hits, line);
    NextClass(names, 7, hits, line);
    NextClass(names, 8, hits, line);
    NextClass(names, 9, hits, line);
    NoClassLeft(hits, line);
  }

  lemma NextClass(names: seq<string>, k: nat, hits: Patterns, line: string)
    requires k < |names|
    ensures ClassifyFrom(names[k..], hits, line) == if hits(names[k], line) then Some(names[k]) else ClassifyFrom(names[k + 1..], hits, line)
  {
    assert names[k..][1..] == names[k + 1..];
  }

  lemma NoClassLeft(hits: Patterns, line: string)
    ensures ClassifyFrom([], hits, line) == None
  {}

  // ---------- what is printed of a class ----------

  lemma {:induction false} RowPrinted(last: bool, names: seq<string>, t: Table, c: string)
    requires c in names
    ensures PrintEvent(last, c, SeverityOf(c), Get(t, c)) in EventLines(last, names, t)
  {
    hide SeverityOf, PrintEvent;
    if names[0] != c { RowPrinted(last, names[1..], t, c); }
  }

  lemma {:induction false} RowCount(last: bool, names: seq<string>, t: Table)
    ensures |EventLines(last, names, t)| == |names|
  {
    hide SeverityOf, PrintEvent;
    if names != [] { RowCount(last, names[1..], t); }
  }

  /** The rows of one table: ten lines, the storage faults fatal, the two losses of a device
      dropouts, and the rest precursors. */
  predicate Rows(lines: seq<string>, last: bool, t: Table) {
    && PrintEvent(last, "ext4_remount_ro", "fatal", Get(t, "ext4_remount_ro")) in lines
    && PrintEvent(last, "scsi_offline", "fatal", Get(t, "scsi_offline")) in lines
    && PrintEvent(last, "disk_zero_capacity", "fatal", Get(t, "disk_zero_capacity")) in lines
    && PrintEvent(last, "ext4_error", "fatal", Get(t, "ext4_error")) in lines
    && PrintEvent(last, "journal_aborted", "fatal", Get(t, "journal_aborted")) in lines
    && PrintEvent(last, "block_io_error", "fatal", Get(t, "block_io_error")) in lines
    && PrintEvent(last, "uas_fault", "precursor", Get(t, "uas_fault")) in lines
    && PrintEvent(last, "usb_disconnect", "dropout", Get(t, "usb_disconnect")) in lines
    && PrintEvent(last, "usb_reset", "precursor", Get(t, "usb_reset")) in lines
    && PrintEvent(last, "usb_over_current", "dropout", Get(t, "usb_over_current")) in lines
  }

  lemma Severities()
    ensures SeverityOf("ext4_remount_ro") == SeverityOf("scsi_offline") == SeverityOf("disk_zero_capacity") == "fatal"
    ensures SeverityOf("ext4_error") == SeverityOf("journal_aborted") == SeverityOf("block_io_error") == "fatal"
    ensures SeverityOf("usb_disconnect") == SeverityOf("usb_over_current") == "dropout"
    ensures SeverityOf("uas_fault") == SeverityOf("usb_reset") == "precursor"
  {
    assert |"uas_fault"| == 9 && |"usb_reset"| == 9 && |"usb_disconnect"| == 14 && |"usb_over_current"| == 16;
    assert forall c :: c in FATAL_CLASSES ==> |c| >= 10;
    assert "usb_disconnect"[0] == 'u' && "usb_over_current"[0] == 'u';
    assert forall c :: c in FATAL_CLASSES ==> c[0] != 'u';
  }

  lemma NamesOfClasses()
    ensures var names := Sort(Classes());
            && |names| == 10 && Sorted(names)
            && "ext4_remount_ro" in names && "scsi_offline" in names && "disk_zero_capacity" in names && "ext4_error" in names
            && "journal_aborted" in names && "block_io_error" in names && "uas_fault" in names && "usb_disconnect" in names
            && "usb_reset" in names && "usb_over_current" in names
  {
    hide Sort, Sorted;
    SortedClasses();
    SortSorted(Classes());
    SameElements(Sort(Classes()), Classes());
    InClasses();
  }

  lemma InClasses()
    ensures "ext4_remount_ro" in Classes() && "scsi_offline" in Classes() && "disk_zero_capacity" in Classes() && "ext4_error" in Classes()
    ensures "journal_aborted" in Classes() && "block_io_error" in Classes() && "uas_fault" in Classes() && "usb_disconnect" in Classes()
    ensures "usb_reset" in Classes() && "usb_over_current" in Classes()
  {
    var c := Classes();
    assert c[0] in c && c[1] in c && c[2] in c && c[3] in c && c[4] in c && c[5] in c && c[6] in c && c[7] in c && c[8] in c && c[9] in c;
  }

  lemma TableRows(last: bool, t: Table)
    ensures var lines := EventLines(last, Sort(Classes()), t); |lines| == 10 && Rows(lines, last, t)
  {
    hide Sort, Classes, PrintEvent, SeverityOf, EventLines;
    NamesOfClasses();
    Severities();
    var names := Sort(Classes());
    RowCount(last, names, t);
    forall c | c in names ensures PrintEvent(last, c, SeverityOf(c), Get(t, c)) in EventLines(last, names, t) { RowPrinted(last, names, t, c); }
  }

  lemma LinesOfText(w: Wording, counts: Table, now: nat, bootId: Option<string>, last: Option<Table>)
    requires PlainWording(w) && (bootId.Some? ==> Plain(bootId.value))
    ensures SplitLines(Render(w, counts, now, bootId, last)) == OutLines(w, counts, now, bootId, last)
  {
    hide Plain, PlainWording, OutLines, SplitLines, Lines;
    OutPlain(w, counts, now, bootId, last);
    SplitOfLines(OutLines(w, counts, now, bootId, last));
  }

  /** The line of the boot id, and of the time. */
  function BootText(id: string): string { "homelab_kernel_io_boot_id_info{boot_id=\"" + (id + "\"} 1") }

  function TimeText(now: nat): string { "homelab_kernel_io_scan_timestamp_seconds " + Dec(now) }

  lemma OtherLines(id: string, now: nat)
    ensures PrintBoot(id) == BootText(id) && STAMP + Dec(now) == TimeText(now)
  {
    hide Dec;
  }

  function Sections(w: Wording, rows: seq<string>, now: nat, bootId: Option<string>, before: Option<seq<string>>): seq<string> {
    Comments(w.events) + rows + (if before.Some? then Comments(w.last) + before.value else [])
    + (if bootId.Some? then Comments(w.boot) + [BootText(bootId.value)] else []) + Comments(w.stamp) + [TimeText(now)]
  }

  /** The printed text: the comments and the ten rows of this boot, in the order of their names; the
      comments and the ten rows of the boot before, if there are any; the boot id, if it is known;
      and the time of the scan. */
  lemma RenderExactly(w: Wording, counts: Table, now: nat, bootId: Option<string>, last: Option<Table>) returns (rows: seq<string>, before: seq<string>)
    requires PlainWording(w) && (bootId.Some? ==> Plain(bootId.value))
    ensures |rows| == 10 && Rows(rows, false, counts) && rows == EventLines(false, Sort(Classes()), counts)
    ensures last.Some? ==> |before| == 10 && Rows(before, true, last.value) && before == EventLines(true, Sort(Classes()), last.value)
    ensures SplitLines(Render(w, counts, now, bootId, last)) == Sections(w, rows, now, bootId, if last.Some? then Some(before) else None)
  {
    hide Sort, Classes, EventLines, Comments, Dec, SplitLines, Render, Rows, Plain, PlainWording, PrintBoot, BootText, TimeText;
    LinesOfText(w, counts, now, bootId, last);
    OtherLines(if bootId.Some? then bootId.value else "", now);
    TableRows(false, counts);
    rows, before := EventLines(false, Sort(Classes()), counts), [];
    if last.Some? {
      TableRows(true, last.value);
      before := EventLines(true, Sort(Classes()), last.value);
    }
  }
}
