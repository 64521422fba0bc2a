/** The badge colour of a proposal status (src/utils/statusBadge.ts). */
module StatusBadge {

  datatype ProposalStatus = Pending | Approved | Rejected

  /** The Tailwind colour of each status. */
  function Palette(s: ProposalStatus): string {
    match s
    case Approved => "emerald"
    case Rejected => "rose"
    case Pending => "amber"
  }

  /** Border, background and text classes in one colour. */
  function Badge(colour: string): string {
    "border-" + colour + "-400/30 bg-" + colour + "-400/10 text-" + colour + "-100"
  }

  /** statusBadgeClass: approved, rejected, and anything else (pending); each badge in one colour throughout. */
  function StatusBadgeClass(s: ProposalStatus): (cls: string)
    ensures cls == Badge(Palette(s))
  {
    if s == Approved then
      ApprovedBadge();
      "border-emerald-400/30 bg-emerald-400/10 text-emerald-100"
    else if s == Rejected then
      RejectedBadge();
      "border-rose-400/30 bg-rose-400/10 text-rose-100"
    else
      PendingBadge();
      "border-amber-400/30 bg-amber-400/10 text-amber-100"
  }

  lemma ApprovedBadge()
    ensures Badge("emerald") == "border-emerald-400/30 bg-emerald-400/10 text-emerald-100"
  {
    assert "border-" + "emerald" == "border-emerald";
    assert "border-emerald" + "-400/30 bg-" == "border-emerald-400/30 bg-";
    assert "border-emerald-400/30 bg-" + "emerald" == "border-emerald-400/30 bg-emerald";
    assert "border-emerald-400/30 bg-emerald" + "-400/10 text-" == "border-emerald-400/30 bg-emerald-400/10 text-";
    assert "border-emerald-400/30 bg-emerald-400/10 text-" + "emerald" == "border-emerald-400/30 bg-emerald-400/10 text-emerald";
    assert "border-emerald-400/30 bg-emerald-400/10 text-emerald" + "-100" == "border-emerald-400/30 bg-emerald-400/10 text-emerald-100";
  }

  lemma RejectedBadge()
    ensures Badge("rose") == "border-rose-400/30 bg-rose-400/10 text-rose-100"
  {
    assert "border-" + "rose" == "border-rose";
    assert "border-rose" + "-400/30 bg-" == "border-rose-400/30 bg-";
    assert "border-rose-400/30 bg-" + "rose" == "border-rose-400/30 bg-rose";
    assert "border-rose-400/30 bg-rose" + "-400/10 text-" == "border-rose-400/30 bg-rose-400/10 text-";
    assert "border-rose-400/30 bg-rose-400/10 text-" + "rose" == "border-rose-400/30 bg-rose-400/10 text-rose";
    assert "border-rose-400/30 bg-rose-400/10 text-rose" + "-100" == "border-rose-400/30 bg-rose-400/10 text-rose-100";
  }

  lemma PendingBadge()
    ensures Badge("amber") == "border-amber-400/30 bg-amber-400/10 text-amber-100"
  {
    assert "border-" + "amber" == "border-amber";
    assert "border-amber" + "-400/30 bg-" == "border-amber-400/30 bg-";
    assert "border-amber-400/30 bg-" + "amber" == "border-amber-400/30 bg-amber";
    assert "border-amber-400/30 bg-amber" + "-400/10 text-" == "border-amber-400/30 bg-amber-400/10 text-";
    assert "border-amber-400/30 bg-amber-400/10 text-" + "amber" == "border-amber-400/30 bg-amber-400/10 text-amber";
    assert "border-amber-400/30 bg-amber-400/10 text-amber" + "-100" == "border-amber-400/30 bg-amber-400/10 text-amber-100";
  }

  /** The three statuses get three different badges. */
  lemma StatusBadgeClassInjective(a: ProposalStatus, b: ProposalStatus)
    requires StatusBadgeClass(a) == StatusBadgeClass(b)
    ensures a == b
  {
    assert |Badge(Palette(a))| == 3 * |Palette(a)| + 35;
    assert |Badge(Palette(b))| == 3 * |Palette(b)| + 35;
  }
}
