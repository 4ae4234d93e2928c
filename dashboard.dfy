/**
 * The dashboard (frontend/src/components/Dashboard.tsx): today's, pending and
 * completed counts, the per-status bar chart, the per-technician tally that
 * feeds the pie chart, the five most recent reports and the slice colours.
 */
module Dashboard {
  import opened Seqs
  import opened App

  function HasStatus(s: Status): Report -> bool
  {
    (r: Report) => r.status == s
  }

  function OnDate(day: string): Report -> bool
  {
    (r: Report) => r.date == day
  }

  function ByTechnician(name: string): Report -> bool
  {
    (r: Report) => r.technician == name
  }

  /** The number of reports in status `s`. */
  function StatusCount(reports: seq<Report>, s: Status): nat
  {
    Count(reports, HasStatus(s))
  }

  /** `todayReports`: reports whose date string equals today's date string exactly (the clock is a parameter). */
  function TodayReports(reports: seq<Report>, today: string): (n: nat)
    ensures n <= |reports|
    ensures n == |set i | 0 <= i < |reports| && reports[i].date == today|
    ensures n == 0 <==> forall i :: 0 <= i < |reports| ==> reports[i].date != today
  {
    var kept := Filter(reports, OnDate(today));
    FilterLengthIsPositions(reports, OnDate(today));
    var matching := set i | 0 <= i < |reports| && reports[i].date == today;
    assert matching == Positions(reports, OnDate(today));
    assert (exists i :: 0 <= i < |reports| && reports[i].date == today) ==> |kept| > 0 by {
      if exists i :: 0 <= i < |reports| && reports[i].date == today {
        var i :| 0 <= i < |reports| && reports[i].date == today;
        assert reports[i] in kept;
      }
    }
    assert (forall i :: 0 <= i < |reports| ==> reports[i].date != today) ==> |kept| == 0 by {
      if forall i :: 0 <= i < |reports| ==> reports[i].date != today {
        FilterNone(reports, OnDate(today));
      }
    }
    |kept|
  }

  /** `pendingReports`: the number of reports in status Pendente. */
  function PendingReports(reports: seq<Report>): (n: nat)
    ensures n == |set i | 0 <= i < |reports| && reports[i].status == Pendente|
  {
    PositionsOfStatus(reports, Pendente);
    StatusCount(reports, Pendente)
  }

  /** `completedReports`: the number of reports in status Concluído. */
  function CompletedReports(reports: seq<Report>): (n: nat)
    ensures n == |set i | 0 <= i < |reports| && reports[i].status == Concluido|
  {
    PositionsOfStatus(reports, Concluido);
    StatusCount(reports, Concluido)
  }

  /** A status count is the number of positions holding a report in that status. */
  lemma PositionsOfStatus(reports: seq<Report>, s: Status)
    ensures StatusCount(reports, s) == |set i | 0 <= i < |reports| && reports[i].status == s|
  {
    FilterLengthIsPositions(reports, HasStatus(s));
    var matching := set i | 0 <= i < |reports| && reports[i].status == s;
    assert matching == Positions(reports, HasStatus(s));
  }

  datatype Bar = Bar(name: string, count: nat)

  /** `barChartData`: one bar per status, in the order Pendente, Em Progresso, Concluído. */
  function BarChartData(reports: seq<Report>): (bars: seq<Bar>)
    ensures |bars| == 3
    ensures bars[0] == Bar("Pendente", PendingReports(reports))
    ensures bars[1] == Bar("Em Progresso", StatusCount(reports, EmProgresso))
    ensures bars[2] == Bar("Concluído", CompletedReports(reports))
  {
    [Bar(StatusLabel(Pendente), StatusCount(reports, Pendente)),
     Bar(StatusLabel(EmProgresso), StatusCount(reports, EmProgresso)),
     Bar(StatusLabel(Concluido), StatusCount(reports, Concluido))]
  }

  /** Since a report has exactly one of the three statuses, the three counts add up to the number of reports. */
  lemma {:induction false} StatusCountsSum(reports: seq<Report>)
    ensures StatusCount(reports, Pendente) + StatusCount(reports, EmProgresso) + StatusCount(reports, Concluido) == |reports|
    decreases |reports|
  {
    if reports != [] {
      var last := reports[|reports| - 1];
      var init := reports[..|reports| - 1];
      assert reports == init + [last];
      StatusCountsSum(init);
      CountSnoc(init, last, HasStatus(Pendente));
      CountSnoc(init, last, HasStatus(EmProgresso));
      CountSnoc(init, last, HasStatus(Concluido));
    }
  }

  lemma BarsSumToReports(reports: seq<Report>)
    ensures var bars := BarChartData(reports); bars[0].count + bars[1].count + bars[2].count == |reports|
  {
    StatusCountsSum(reports);
  }

  /** The number of reports assigned to technician `name`. */
  function TechnicianCount(reports: seq<Report>, name: string): nat
  {
    Count(reports, ByTechnician(name))
  }

  /** The technician names of `reports`, each once, in order of first occurrence. */
  function DistinctTechnicians(reports: seq<Report>): (names: seq<string>)
    ensures forall i, j :: 0 <= i < j < |names| ==> names[i] != names[j]
    ensures forall n :: n in names <==> exists i :: 0 <= i < |reports| && reports[i].technician == n
    decreases |reports|
  {
    if reports == [] then []
    else
      var init := reports[..|reports| - 1];
      var last := reports[|reports| - 1].technician;
      var names := DistinctTechnicians(init);
      assert forall i :: 0 <= i < |init| ==> init[i] == reports[i];
      if last in names then names else names + [last]
  }

  /**
   * A JavaScript object used as a dictionary: its string keys in insertion
   * order (the order `Object.entries` reports them in) and the value of each.
   */
  datatype Tally = Tally(keys: seq<string>, values: map<string, nat>)

  /** `acc` is the tally of `reports`: its keys are the distinct names and each value is that name's count. */
  ghost predicate IsTallyOf(acc: Tally, reports: seq<Report>)
  {
    && acc.keys == DistinctTechnicians(reports)
    && (forall n :: n in acc.values <==> n in acc.keys)
    && (forall n :: n in acc.values ==> acc.values[n] == TechnicianCount(reports, n))
  }

  /** One step of the `reduce`: `acc[name] = (acc[name] || 0) + 1`, a new key going to the end. */
  function Bump(acc: Tally, name: string): (next: Tally)
    ensures name in next.values
    ensures next.values[name] == if name in acc.values then acc.values[name] + 1 else 1
    ensures forall n :: n != name ==> (n in next.values <==> n in acc.values)
    ensures forall n :: n != name && n in acc.values ==> next.values[n] == acc.values[n]
  {
    if name in acc.values then acc.(values := acc.values[name := acc.values[name] + 1])
    else Tally(acc.keys + [name], acc.values[name := 1])
  }

  lemma {:induction false} DistinctTechniciansSnoc(reports: seq<Report>, r: Report)
    ensures DistinctTechnicians(reports + [r]) ==
      if r.technician in DistinctTechnicians(reports) then DistinctTechnicians(reports)
      else DistinctTechnicians(reports) + [r.technician]
  {
    assert (reports + [r])[..|reports|] == reports;
  }

  lemma TechnicianCountSnoc(reports: seq<Report>, r: Report, n: string)
    ensures TechnicianCount(reports + [r], n) == TechnicianCount(reports, n) + (if r.technician == n then 1 else 0)
  {
    CountSnoc(reports, r, ByTechnician(n));
  }

  /** The keys and the key set of a bumped tally follow the distinct names. */
  lemma {:induction false} BumpKeepsKeys(acc: Tally, reports: seq<Report>, r: Report)
    requires acc.keys == DistinctTechnicians(reports)
    requires forall n :: n in acc.values <==> n in acc.keys
    ensures Bump(acc, r.technician).keys == DistinctTechnicians(reports + [r])
    ensures forall n :: n in Bump(acc, r.technician).values <==> n in Bump(acc, r.technician).keys
  {
    DistinctTechniciansSnoc(reports, r);
  }

  /** The values of a bumped tally are the counts over the longer list. */
  lemma {:induction false} BumpKeepsCounts(acc: Tally, reports: seq<Report>, r: Report)
    requires forall n :: n in acc.values ==> acc.values[n] == TechnicianCount(reports, n)
    requires r.technician !in acc.values ==> TechnicianCount(reports, r.technician) == 0
    ensures forall n :: n in Bump(acc, r.technician).values ==> Bump(acc, r.technician).values[n] == TechnicianCount(reports + [r], n)
  {
    var next := Bump(acc, r.technician);
    forall n | n in next.values ensures next.values[n] == TechnicianCount(reports + [r], n) {
      TechnicianCountSnoc(reports, r, n);
    }
  }

  lemma {:induction false} BumpKeepsTally(acc: Tally, reports: seq<Report>, r: Report)
    requires IsTallyOf(acc, reports)
    ensures IsTallyOf(Bump(acc, r.technician), reports + [r])
  {
    var name := r.technician;
    BumpKeepsKeys(acc, reports, r);
    if name !in acc.values {
      assert TechnicianCount(reports, name) == 0 by {
        assert forall i :: 0 <= i < |reports| ==> reports[i].technician != name;
        FilterNone(reports, ByTechnician(name));
      }
    }
    BumpKeepsCounts(acc, reports, r);
  }

  /** One iteration of the `reduce` extends the tally from a prefix to the next longer prefix. */
  lemma TallyStep(acc: Tally, reports: seq<Report>, i: nat)
    requires i < |reports| && IsTallyOf(acc, reports[..i])
    ensures IsTallyOf(Bump(acc, reports[i].technician), reports[..i + 1])
  {
    BumpKeepsTally(acc, reports[..i], reports[i]);
    assert reports[..i + 1] == reports[..i] + [reports[i]];
  }

  /** The empty object is the tally of the empty prefix. */
  lemma EmptyTally(reports: seq<Report>)
    ensures IsTallyOf(Tally([], map[]), reports[..0])
  {
    assert reports[..0] == [];
  }

  /** `technicianReportCounts`: the `reduce` that bumps `acc[report.technician]` in one pass over the reports. */
  method TechnicianReportCounts(reports: seq<Report>) returns (acc: Tally)
    ensures acc.keys == DistinctTechnicians(reports)
    ensures forall n :: n in acc.values <==> n in acc.keys
    ensures forall n :: n in acc.values ==> acc.values[n] == TechnicianCount(reports, n)
  {
    acc := Tally([], map[]);
    EmptyTally(reports);
    var i := 0;
    while i < |reports|
      invariant 0 <= i <= |reports|
      invariant IsTallyOf(acc, reports[..i])
    {
      TallyStep(acc, reports, i);
      acc := Bump(acc, reports[i].technician);
      i := i + 1;
    }
    assert reports[..i] == reports;
  }

  datatype Slice = Slice(name: string, value: nat)

  /** `pieChartData`: one slice per key of the tally, in key order. */
  function PieChartData(acc: Tally): (slices: seq<Slice>)
    requires forall n :: n in acc.keys ==> n in acc.values
    ensures |slices| == |acc.keys|
    ensures forall i :: 0 <= i < |slices| ==> slices[i] == Slice(acc.keys[i], acc.values[acc.keys[i]])
  {
    seq(|acc.keys|, i requires 0 <= i < |acc.keys| => Slice(acc.keys[i], acc.values[acc.keys[i]]))
  }

  function SliceTotal(slices: seq<Slice>): nat
    decreases |slices|
  {
    if slices == [] then 0 else SliceTotal(slices[..|slices| - 1]) + slices[|slices| - 1].value
  }

  /** Sum of the tallies of the given names over `reports`. */
  function SumCounts(names: seq<string>, reports: seq<Report>): nat
    decreases |names|
  {
    if names == [] then 0 else SumCounts(names[..|names| - 1], reports) + TechnicianCount(reports, names[|names| - 1])
  }

  /** How many of the names equal `n`. */
  function Occurrences(names: seq<string>, n: string): nat
    decreases |names|
  {
    if names == [] then 0 else Occurrences(names[..|names| - 1], n) + (if names[|names| - 1] == n then 1 else 0)
  }

  lemma {:induction false} SumCountsSnoc(names: seq<string>, reports: seq<Report>, r: Report)
    ensures SumCounts(names, reports + [r]) == SumCounts(names, reports) + Occurrences(names, r.technician)
    decreases |names|
  {
    if names != [] {
      SumCountsSnoc(names[..|names| - 1], reports, r);
      CountSnoc(reports, r, ByTechnician(names[|names| - 1]));
    }
  }

  lemma {:induction false} SumCountsAppendName(names: seq<string>, n: string, reports: seq<Report>)
    ensures SumCounts(names + [n], reports) == SumCounts(names, reports) + TechnicianCount(reports, n)
  {
    assert (names + [n])[..|names|] == names;
  }

  lemma {:induction false} OccurrencesDistinct(names: seq<string>, n: string)
    requires forall i, j :: 0 <= i < j < |names| ==> names[i] != names[j]
    ensures Occurrences(names, n) == if n in names then 1 else 0
    decreases |names|
  {
    if names != [] {
      var init := names[..|names| - 1];
      assert forall i :: 0 <= i < |init| ==> init[i] == names[i];
      OccurrencesDistinct(init, n);
      assert n in names <==> n in init || names[|names| - 1] == n;
    }
  }

  /** Every report is tallied under exactly one technician: the tallies of the distinct names add up to the number of reports. */
  lemma {:induction false} DistinctCountsSum(reports: seq<Report>)
    ensures SumCounts(DistinctTechnicians(reports), reports) == |reports|
    decreases |reports|
  {
    if reports != [] {
      var init := reports[..|reports| - 1];
      var last := reports[|reports| - 1];
      var names := DistinctTechnicians(init);
      assert reports == init + [last];
      DistinctCountsSum(init);
      SumCountsSnoc(names, init, last);
      OccurrencesDistinct(names, last.technician);
      if last.technician !in names {
        SumCountsAppendName(names, last.technician, reports);
        SumCountsSnoc(names, init, last);
        assert TechnicianCount(init, last.technician) == 0 by {
          FilterNone(init, ByTechnician(last.technician));
        }
        CountSnoc(init, last, ByTechnician(last.technician));
      }
    }
  }

  /** Slices whose values are the counts of the given names add up to the sum of those counts. */
  lemma {:induction false} SliceTotalIsSumCounts(slices: seq<Slice>, names: seq<string>, reports: seq<Report>)
    requires |slices| == |names|
    requires forall i :: 0 <= i < |slices| ==> slices[i].value == TechnicianCount(reports, names[i])
    ensures SliceTotal(slices) == SumCounts(names, reports)
    decreases |names|
  {
    if names != [] {
      var k := |names| - 1;
      var front, first := slices[..k], names[..k];
      assert forall i :: 0 <= i < |front| ==> front[i] == slices[i] && first[i] == names[i];
      SliceTotalIsSumCounts(front, first, reports);
      assert SliceTotal(slices) == SliceTotal(front) + slices[k].value;
      assert SumCounts(names, reports) == SumCounts(first, reports) + TechnicianCount(reports, names[k]);
    }
  }

  /** The pie chart built from the tally has one slice per distinct technician and its values add up to the number of reports. */
  method PieChart(reports: seq<Report>) returns (slices: seq<Slice>)
    ensures |slices| == |DistinctTechnicians(reports)|
    ensures forall i :: 0 <= i < |slices| ==> slices[i].name == DistinctTechnicians(reports)[i]
    ensures forall i :: 0 <= i < |slices| ==> slices[i].value == TechnicianCount(reports, slices[i].name)
    ensures SliceTotal(slices) == |reports|
  {
    var acc := TechnicianReportCounts(reports);
    slices := PieChartData(acc);
    SliceTotalIsSumCounts(slices, acc.keys, reports);
    DistinctCountsSum(reports);
  }

  /** The recent list: the first five reports, or all of them when there are fewer. */
  function RecentReports(reports: seq<Report>): (recent: seq<Report>)
    ensures |recent| == if |reports| < 5 then |reports| else 5
    ensures forall i :: 0 <= i < |recent| ==> recent[i] == reports[i]
  {
    if |reports| <= 5 then reports else reports[..5]
  }

  const Colors: seq<string> := ["#0057D9", "#00A3E0", "#5CB3FF", "#ADD8E6"]

  /** The colour of slice `i`: the palette repeats every four slices. */
  function SliceColor(i: nat): (c: string)
    ensures c in Colors
    ensures i < |Colors| ==> c == Colors[i]
  {
    Colors[i % |Colors|]
  }

  /** The palette repeats every four slices. */
  lemma SliceColorPeriodic(i: nat)
    ensures SliceColor(i + |Colors|) == SliceColor(i)
  {
  }
}
