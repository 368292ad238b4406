/**
 * The whisper.cpp model catalogue of internal/models/downloader.go: the
 * table of known models, lookup by name, the path of a model file, the
 * byte counter wrapped around a download, and the human-readable size.
 *
 * The HTTP download, the file system and the environment lookup of the
 * models directory are not modelled; the directory is a parameter.
 */
module Models {
  import opened Text
  import Config

  const HuggingFaceBaseURL := "https://huggingface.co/ggerganov/whisper.cpp/resolve/main"

  datatype ModelInfo = ModelInfo(name: string, filename: string, size: string, url: string)

  function Entry(name: string, filename: string, size: string): ModelInfo
  {
    ModelInfo(name, filename, size, HuggingFaceBaseURL + "/" + filename)
  }

  /** AvailableModels: every model that can be fetched, in the order offered. */
  function AvailableModels(): (ms: seq<ModelInfo>)
    ensures |ms| == 12
  {
    [ Entry("tiny", "ggml-tiny.bin", "75 MB"),
      Entry("tiny.en", "ggml-tiny.en.bin", "75 MB"),
      Entry("base", "ggml-base.bin", "142 MB"),
      Entry("base.en", "ggml-base.en.bin", "142 MB"),
      Entry("small", "ggml-small.bin", "466 MB"),
      Entry("small.en", "ggml-small.en.bin", "466 MB"),
      Entry("medium", "ggml-medium.bin", "1.5 GB"),
      Entry("medium.en", "ggml-medium.en.bin", "1.5 GB"),
      Entry("large-v1", "ggml-large-v1.bin", "2.9 GB"),
      Entry("large-v2", "ggml-large-v2.bin", "2.9 GB"),
      Entry("large-v3", "ggml-large-v3.bin", "2.9 GB"),
      Entry("large", "ggml-large-v3.bin", "2.9 GB") ]
  }

  /** Every entry is downloaded from the Hugging Face base URL under its file name. */
  lemma TableURLs()
    ensures forall m :: m in AvailableModels() ==> m.url == HuggingFaceBaseURL + "/" + m.filename
  {
  }

  /** Every file is `ggml-<name>.bin`, except that "large" is an alias of "large-v3". */
  lemma TableFilenames()
    ensures forall k :: 0 <= k < |AvailableModels()| && AvailableModels()[k].name != "large" ==>
      AvailableModels()[k].filename == "ggml-" + AvailableModels()[k].name + ".bin"
    ensures forall k :: 0 <= k < |AvailableModels()| && AvailableModels()[k].name == "large" ==>
      AvailableModels()[k].filename == "ggml-large-v3.bin"
  {
    var t := AvailableModels();
    assert t[11].name == "large";
    forall k | 0 <= k < 11 ensures t[k].filename == "ggml-" + t[k].name + ".bin" {
      if k <= 1 {
        TinyFilenames(k);
      } else if k <= 3 {
        BaseFilenames(k);
      } else if k <= 5 {
        SmallFilenames(k);
      } else if k <= 7 {
        MediumFilenames(k);
      } else {
        LargeFilenames(k);
      }
    }
  }

  /** The tiny entries' files are named after them. */
  lemma TinyFilenames(k: nat)
    requires 0 <= k <= 1
    ensures AvailableModels()[k].filename == "ggml-" + AvailableModels()[k].name + ".bin"
  {
    var m := AvailableModels()[k];
    if k == 0 {
      assert m.name == "tiny" && m.filename == "ggml-tiny.bin";
    } else {
      assert m.name == "tiny.en" && m.filename == "ggml-tiny.en.bin";
    }
  }

  /** The base entries' files are named after them. */
  lemma BaseFilenames(k: nat)
    requires 2 <= k <= 3
    ensures AvailableModels()[k].filename == "ggml-" + AvailableModels()[k].name + ".bin"
  {
    var m := AvailableModels()[k];
    if k == 2 {
      assert m.name == "base" && m.filename == "ggml-base.bin";
    } else {
      assert m.name == "base.en" && m.filename == "ggml-base.en.bin";
    }
  }

  /** The small entries' files are named after them. */
  lemma SmallFilenames(k: nat)
    requires 4 <= k <= 5
    ensures AvailableModels()[k].filename == "ggml-" + AvailableModels()[k].name + ".bin"
  {
    var m := AvailableModels()[k];
    if k == 4 {
      assert m.name == "small" && m.filename == "ggml-small.bin";
    } else {
      assert m.name == "small.en" && m.filename == "ggml-small.en.bin";
    }
  }

  /** The medium entries' files are named after them. */
  lemma MediumFilenames(k: nat)
    requires 6 <= k <= 7
    ensures AvailableModels()[k].filename == "ggml-" + AvailableModels()[k].name + ".bin"
  {
    var m := AvailableModels()[k];
    if k == 6 {
      assert m.name == "medium" && m.filename == "ggml-medium.bin";
    } else {
      assert m.name == "medium.en" && m.filename == "ggml-medium.en.bin";
    }
  }

  /** The large entries' files are named after them. */
  lemma LargeFilenames(k: nat)
    requires 8 <= k <= 10
    ensures AvailableModels()[k].filename == "ggml-" + AvailableModels()[k].name + ".bin"
  {
    var m := AvailableModels()[k];
    if k == 8 {
      assert m.name == "large-v1" && m.filename == "ggml-large-v1.bin";
    } else if k == 9 {
      assert m.name == "large-v2" && m.filename == "ggml-large-v2.bin";
    } else {
      assert m.name == "large-v3" && m.filename == "ggml-large-v3.bin";
    }
  }

  /** No name appears twice, so the first match is the only one. */
  lemma TableNamesUnique()
    ensures forall i, j :: 0 <= i < j < |AvailableModels()| ==> AvailableModels()[i].name != AvailableModels()[j].name
  {
  }

  /** GetModelInfo: the first entry with the given name, or an error naming it. */
  method GetModelInfo(name: string) returns (r: Result<ModelInfo>)
    ensures r.Ok? ==> r.value.name == name && r.value in AvailableModels()
    ensures r.Ok? ==> exists k :: 0 <= k < |AvailableModels()| && AvailableModels()[k] == r.value &&
                        forall j :: 0 <= j < k ==> AvailableModels()[j].name != name
    ensures r.Err? <==> forall m :: m in AvailableModels() ==> m.name != name
    ensures r.Err? ==> r.msg == "unknown model: " + name
  {
    var models := AvailableModels();
    for i := 0 to |models|
      invariant forall j :: 0 <= j < i ==> models[j].name != name
    {
      if models[i].name == name {
        return Ok(models[i]);
      }
    }
    return Err("unknown model: " + name);
  }

  /** Every model offered to the user is in the table. */
  lemma ModelOptionsKnown()
    ensures forall n :: n in Config.ModelOptions() ==> exists m :: m in AvailableModels() && m.name == n
  {
    var t := AvailableModels();
    assert t[0].name == "tiny" && t[2].name == "base" && t[4].name == "small";
    assert t[6].name == "medium" && t[11].name == "large";
  }

  /** GetModelPath: the table entry's file inside the models directory, or the lookup's error. */
  method GetModelPath(modelsDir: string, name: string) returns (r: Result<string>)
    ensures r.Ok? <==> exists m :: m in AvailableModels() && m.name == name
    ensures r.Ok? ==> exists m :: m in AvailableModels() && m.name == name && r.value == JoinPath(modelsDir, m.filename)
    ensures r.Err? ==> r.msg == "unknown model: " + name
  {
    var info := GetModelInfo(name);
    if info.Err? {
      return Err(info.msg);
    }
    return Ok(JoinPath(modelsDir, info.value.filename));
  }

  // ---------------------------------------------------------------------
  // progressReader

  function Sum(ns: seq<int>): int
  {
    if ns == [] then 0 else Sum(ns[..|ns| - 1]) + ns[|ns| - 1]
  }

  /**
   * The reader wrapped around a download body: it counts the bytes read so
   * far and, when a callback is installed, reports the running count with
   * the expected total after every read.
   */
  class ProgressReader {
    const total: int
    const hasCallback: bool
    var downloaded: int
    /** The (downloaded, total) pairs handed to the callback, in order. */
    var reports: seq<(int, int)>
    /** The byte counts the underlying reader returned, in order. */
    ghost var readCounts: seq<int>

    /** The counter is the sum of all reads, and each report carries the sum up to its read. */
    ghost predicate Valid()
      reads this
    {
      downloaded == Sum(readCounts) &&
      (hasCallback ==> RunningTotals(readCounts, reports, total)) &&
      (!hasCallback ==> reports == [])
    }

    constructor (total: int, hasCallback: bool)
      ensures Valid()
      ensures this.total == total && this.hasCallback == hasCallback
      ensures downloaded == 0 && reports == [] && readCounts == []
    {
      this.total := total;
      this.hasCallback := hasCallback;
      downloaded := 0;
      reports := [];
      readCounts := [];
    }

    /** Read: `n` is what the underlying reader returned; it is passed on unchanged. */
    method Read(n: int) returns (count: int)
      requires Valid()
      modifies this
      ensures Valid()
      ensures count == n
      ensures downloaded == old(downloaded) + n && readCounts == old(readCounts) + [n]
      ensures reports == old(reports) + (if hasCallback then [(downloaded, total)] else [])
    {
      SumAppend(readCounts, n);
      if hasCallback {
        RunningTotalsAppend(readCounts, reports, total, n);
        reports := reports + [(downloaded + n, total)];
      }
      downloaded := downloaded + n;
      readCounts := readCounts + [n];
      count := n;
    }
  }

  /** Each report carries the sum of the reads up to and including its own, with the total. */
  ghost predicate RunningTotals(counts: seq<int>, reports: seq<(int, int)>, total: int)
  {
    |reports| == |counts| && forall k :: 0 <= k < |counts| ==> reports[k] == (Sum(counts[..k + 1]), total)
  }

  lemma SumAppend(ns: seq<int>, n: int)
    ensures Sum(ns + [n]) == Sum(ns) + n
  {
    assert (ns + [n])[..|ns|] == ns;
  }

  /** One more read extends the reports by the new sum. */
  lemma RunningTotalsAppend(counts: seq<int>, reports: seq<(int, int)>, total: int, n: int)
    requires RunningTotals(counts, reports, total)
    ensures RunningTotals(counts + [n], reports + [(Sum(counts) + n, total)], total)
  {
    var cs, rs := counts + [n], reports + [(Sum(counts) + n, total)];
    forall k | 0 <= k < |cs| ensures rs[k] == (Sum(cs[..k + 1]), total) {
      if k < |counts| {
        assert cs[..k + 1] == counts[..k + 1];
      } else {
        assert cs[..k + 1] == cs;
        SumAppend(counts, n);
      }
    }
  }

  /** With no negative read, the reported counts never decrease and all carry the same total. */
  lemma {:induction false} ReportsMonotone(counts: seq<int>, reports: seq<(int, int)>, total: int)
    requires forall k :: 0 <= k < |counts| ==> counts[k] >= 0
    requires RunningTotals(counts, reports, total)
    ensures forall k, l :: 0 <= k <= l < |reports| ==> reports[k].0 <= reports[l].0 && reports[l].1 == total
  {
    forall k, l | 0 <= k <= l < |reports| ensures reports[k].0 <= reports[l].0 {
      SumGrows(counts[..l + 1], k + 1);
      assert counts[..l + 1][..k + 1] == counts[..k + 1];
    }
  }

  lemma {:induction false} SumGrows(ns: seq<int>, i: nat)
    requires i <= |ns| && forall k :: 0 <= k < |ns| ==> ns[k] >= 0
    ensures Sum(ns[..i]) <= Sum(ns)
    decreases |ns|
  {
    if i < |ns| {
      assert ns[..|ns| - 1][..i] == ns[..i];
      SumGrows(ns[..|ns| - 1], i);
    } else {
      assert ns[..i] == ns;
    }
  }

  // ---------------------------------------------------------------------
  // FormatBytes

  const KB := 1024
  const MB := KB * 1024
  const GB := MB * 1024

  /**
   * `bytes / unit` in tenths, rounded to the nearest tenth and, on a tie,
   * to the even tenth, as `%.1f` rounds an exactly represented value.
   */
  function RoundTenths(bytes: nat, unit: nat): (t: nat)
    requires unit > 0
    ensures 2 * (10 * bytes - t * unit) <= unit && 2 * (t * unit - 10 * bytes) <= unit
    ensures 2 * (10 * bytes - t * unit) == unit || 2 * (t * unit - 10 * bytes) == unit ==> t % 2 == 0
  {
    var q, rem := 10 * bytes / unit, 10 * bytes % unit;
    var t := if 2 * rem > unit || (2 * rem == unit && q % 2 == 1) then q + 1 else q;
    RoundingError(10 * bytes, unit, t);
    t
  }

  /** Rounding to the nearest multiple, ties to even, is off by at most half a unit. */
  lemma RoundingError(x: nat, unit: nat, t: nat)
    requires unit > 0
    requires t == if 2 * (x % unit) > unit || (2 * (x % unit) == unit && (x / unit) % 2 == 1) then x / unit + 1 else x / unit
    ensures 2 * (x - t * unit) <= unit && 2 * (t * unit - x) <= unit
    ensures 2 * (x - t * unit) == unit || 2 * (t * unit - x) == unit ==> t % 2 == 0
  {
    DivisionParts(x, unit);
  }

  /** The quotient falls short of `x` by the remainder, and the next multiple passes it by the rest. */
  lemma DivisionParts(x: nat, unit: nat)
    requires unit > 0
    ensures x - (x / unit) * unit == x % unit
    ensures (x / unit + 1) * unit - x == unit - x % unit
  {
    assert x == (x / unit) * unit + x % unit;
    assert (x / unit + 1) * unit == (x / unit) * unit + unit;
  }

  /** `%.1f` of a tenths count. */
  function Tenths(t: nat): string
  {
    Decimal(t / 10) + "." + [DigitChar(t % 10)]
  }

  /** FormatBytes: GB, MB or KB with one decimal from each threshold on, whole bytes below. */
  function FormatBytes(bytes: int): (r: string)
    ensures bytes >= GB <==> HasSuffix(r, " GB")
    ensures GB > bytes >= MB <==> HasSuffix(r, " MB")
    ensures MB > bytes >= KB <==> HasSuffix(r, " KB")
    ensures KB > bytes <==> HasSuffix(r, " B")
    ensures KB > bytes ==> r == Decimal(bytes) + " B"
  {
    var unit := if bytes >= GB then " GB" else if bytes >= MB then " MB" else if bytes >= KB then " KB" else " B";
    var number := if bytes >= GB then Tenths(RoundTenths(bytes, GB))
      else if bytes >= MB then Tenths(RoundTenths(bytes, MB))
      else if bytes >= KB then Tenths(RoundTenths(bytes, KB))
      else Decimal(bytes);
    UnitSuffixes(number, unit);
    number + unit
  }

  /** A text ending in one of the four unit suffixes ends in no other. */
  lemma UnitSuffixes(number: string, unit: string)
    requires unit == " GB" || unit == " MB" || unit == " KB" || unit == " B"
    ensures HasSuffix(number + unit, " GB") <==> unit == " GB"
    ensures HasSuffix(number + unit, " MB") <==> unit == " MB"
    ensures HasSuffix(number + unit, " KB") <==> unit == " KB"
    ensures HasSuffix(number + unit, " B") <==> unit == " B"
  {
    var r := number + unit;
    assert r[|r| - |unit|..] == unit;
    assert r[|r| - 1] == 'B';
    assert r[|r| - 2] == unit[|unit| - 2];
  }
}
