/** Walls as text, printed by the keeper's `printf` and by `runtime.job.walltime`, and read back. */
module Walltime {
  import opened Text

  /** `printf '%02d:%02d:%02d'` over the hours, minutes and seconds of a wall. */
  function Print(seconds: nat): string {
    Join([TwoDigits(seconds / 3600), TwoDigits(seconds % 3600 / 60), TwoDigits(seconds % 60)], ':')
  }

  /** `runtime.job.walltime`: the same text, by two divisions by sixty. */
  function Spell(seconds: nat): string {
    var minutes := seconds / 60;
    Join([TwoDigits(minutes / 60), TwoDigits(minutes % 60), TwoDigits(seconds % 60)], ':')
  }

  /** `walltime_seconds`, None where Python raises: not three fields, or a field that is no number. */
  function Seconds(walltime: string): Option<nat> {
    var parts := Split(walltime, ':');
    if |parts| != 3 then None
    else
      match (ParseNat(parts[0]), ParseNat(parts[1]), ParseNat(parts[2]))
      case (Some(hours), Some(minutes), Some(seconds)) => Some((hours * 60 + minutes) * 60 + seconds)
      case _ => None
  }

  /** The three fields, whatever they hold, read back as they were printed. */
  lemma FieldsReadBack(hours: nat, minutes: nat, seconds: nat)
    ensures Seconds(Join([TwoDigits(hours), TwoDigits(minutes), TwoDigits(seconds)], ':'))
         == Some((hours * 60 + minutes) * 60 + seconds)
  {
    var parts := [TwoDigits(hours), TwoDigits(minutes), TwoDigits(seconds)];
    SplitJoin(parts, ':');
    ParseTwoDigits(hours);
    ParseTwoDigits(minutes);
    ParseTwoDigits(seconds);
  }

  /** A printed wall decodes to exactly the seconds it was printed from, past a hundred hours too. */
  lemma PrintedWallDecodes(seconds: nat)
    ensures Seconds(Print(seconds)) == Some(seconds)
  {
    hide Seconds, Join, TwoDigits;
    FieldsReadBack(seconds / 3600, seconds % 3600 / 60, seconds % 60);
    FieldsAddUp(seconds);
  }

  lemma FieldsAddUp(seconds: nat)
    ensures (seconds / 3600 * 60 + seconds % 3600 / 60) * 60 + seconds % 60 == seconds
  {
  }

  /** The shell's arithmetic and Python's agree, so the keeper and the tool spell one wall alike. */
  lemma SpellingsAgree(seconds: nat)
    ensures Spell(seconds) == Print(seconds)
    ensures Seconds(Spell(seconds)) == Some(seconds)
  {
    assert seconds / 60 / 60 == seconds / 3600;
    assert seconds / 60 % 60 == seconds % 3600 / 60;
    PrintedWallDecodes(seconds);
  }
}
