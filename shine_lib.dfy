/** The interface of the shine encoding engine as the adapter uses it. The
    engine itself is opaque: its answers reach the model as arguments. */
module ShineLib {
  import opened Wrappers

  type Pos = n: int | 0 < n witness 1

  /** Channel mode (`shine->mode`, `config.mpeg.mode`). */
  datatype Mode = Stereo | JointStereo | DualChannel | Mono

  /** Pre-emphasis (`shine->emphasis`, `config.mpeg.emph`). */
  datatype Emphasis = NoEmphasis | Mu50_15 | Citt

  /** The fields of `shine_config_t` the adapter fills in: the MPEG part
      (bitrate, mode, emphasis) and the wave part (sample rate, channels). */
  datatype Config = Config(bitr: int, mode: Mode, emph: Emphasis, samplerate: int, channels: int)

  /** The configuration of a zero-initialised element instance. */
  const ZeroConfig: Config := Config(0, Stereo, NoEmphasis, 0, 0)

  /** A live engine instance: it was initialised with `config` and, for its
      whole lifetime, consumes `samplesPerPass` sample frames per encode call
      (`shine_samples_per_pass`). */
  datatype Handle = Handle(config: Config, samplesPerPass: Pos)

  /** What `shine_initialise` answers: NULL, or a fresh engine whose
      samples-per-pass is fixed by the engine. */
  datatype InitReply = Refused | Created(samplesPerPass: Pos)

  /** The handle `shine_initialise` returns for `config`. */
  function NewHandle(config: Config, reply: InitReply): (h: Option<Handle>)
    ensures h.Some? <==> reply.Created?
    ensures h.Some? ==> h.value.config == config && h.value.samplesPerPass == reply.samplesPerPass
  {
    match reply
    case Refused => None
    case Created(spp) => Some(Handle(config, spp))
  }
}
