/**
 * The job settings of internal/config/config.go that the core reads, and the
 * list of model names offered to the user.
 */
module Config {
  /** The settings of one transcription job. */
  datatype TranscriptionConfig = TranscriptionConfig(url: string, model: string, timestamps: bool, outputDir: string)

  /** ModelOptions: the model names offered to the user. */
  function ModelOptions(): seq<string>
  {
    ["tiny", "base", "small", "medium", "large"]
  }
}
